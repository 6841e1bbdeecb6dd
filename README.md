# Size recommendation service — a Dafny model

This project models the core of a retail size-recommendation service for a menswear store.

**Size recommendation.**
- A shopper's height, weight, body shape and age are turned into estimated body measurements: chest, waist, hip, shoulder and foot length.
- Each size of a garment is scored against those estimates. The score accounts for the ease that the garment's fit type calls for, less the stretch its fabric gives.
- The sizes are ranked, with stable sorting on a descending score. The response reports:
  - the best size and its confidence (the score cut to an integer);
  - an alternative size within 15 points;
  - an English and a Turkish fit description;
  - a sizing note.

**Around the recommendation.**
- Product records are validated and kept in an in-memory store. Lookups check that the calling tenant owns the product.
- API keys are checked against an in-memory cache and a built-in test key.
- A product scraper normalises three kinds of scraped text:
  - fabric labels become composition dictionaries;
  - titles give a fit type;
  - size-chart rows give per-size measurements. A fallback chart per brand is used when a page has none.
- A chat endpoint can use a rule-based fallback stylist. It detects the intent of a message and picks products from a demo inventory. The chat response then carries the full card of each product id it was given.

**How the model is organised.**
- There is one Dafny module per source file:
  - `Schemas` (app/models/schemas.py);
  - `BodyEstimator`;
  - `RecommendationEngine`;
  - `IngestBeymen` and `IngestSizeChart` (both scrapers/ingest_beymen.py);
  - `Products` (the product router's store);
  - `Auth`;
  - `App` (app/main.py).
- Supporting modules:
  - `Wrappers`: Option and Result;
  - `Dicts`: Python's insertion-ordered `dict`, as a sequence of key/value pairs;
  - `Text`: ASCII case mapping, substring search, joining and the character classes used;
  - `Numbers`: `round`, `int()`, `min` and `max` on reals;
  - `StableSort`: `sorted(..., reverse=True)`.
- **Loops.** A loop in the source is a method with a `while` loop. Its `ensures` ties the result to a specification function. The promises of the source are then lemmas about that function.
- **State.** The authentication middleware and the product store update their state in place, so each is a `class` whose methods `modify` it.
- **Numbers.** Arithmetic is on unbounded reals.

## Model

| member | source | states |
|---|---|---|
| Schemas.ParseFitType | app/models/schemas.py:13-18 | parsing a string as a fit type succeeds only on that fit type's own value |
| Schemas.FitTypeEnumeration | app/models/schemas.py:13-18 | there are exactly four distinct fit types, and each one's value parses back to it |
| Schemas.ParseBodyShape | app/models/schemas.py:21-27 | parsing a string as a body shape succeeds only on that shape's own value |
| Schemas.BodyShapeEnumeration | app/models/schemas.py:21-27 | there are exactly five distinct body shapes, and each one's value parses back to it |
| Schemas.ModelDump | app/models/schemas.py:43-51 | the dumped measurements of a size carry the six fields in declaration order, with unset optional fields kept as None |
| Schemas.ValidMeasurementsPositive | app/models/schemas.py:45-50 | every value that a validated size dumps, optional ones included, is at least 20 cm |
| Schemas.ValidateFabricComposition | app/models/schemas.py:67-72 | a composition is accepted, unchanged, exactly when its percentages sum to between 99 and 101 |
| Schemas.ValidateMeasurements | app/models/schemas.py:74-78 | the size table is accepted, unchanged, exactly when it has at least one size |
| Schemas.EffectivePreference | app/routers/recommendations.py:82 | `request.preferred_fit or "true_to_size"`: a missing fit preference reads as true to size, as the field default at app/models/schemas.py:113-116 also gives; a given one is kept |
| Schemas.RequestWithDefaults | app/models/schemas.py:106-116 | a request built without a fit preference asks for true to size |
| Dicts.Keys | app/services/recommendation_engine.py:210 | the keys of a dictionary come one per entry, in insertion order |
| Dicts.GetSomeIffHasKey | app/services/recommendation_engine.py:212 | `dict.get` finds a value exactly when the key is present |
| Dicts.Set | scrapers/ingest_beymen.py:119 | assigning to an existing key keeps the size; assigning to a new key appends the entry at the end |
| Dicts.GetSetSame | scrapers/ingest_beymen.py:119 | after `d[k] = v`, reading `k` gives `v` |
| Dicts.GetSetOther | scrapers/ingest_beymen.py:119 | after `d[k] = v`, reading any other key gives what it gave before |
| Dicts.SetKeys | scrapers/ingest_beymen.py:119 | after `d[k] = v`, the keys are the old keys plus `k` |
| Dicts.SetDistinct | app/services/recommendation_engine.py:383 | assignment keeps every key unique |
| Dicts.TailDistinct | app/services/recommendation_engine.py:383 | in a dictionary with unique keys, the entries after the first have unique keys, none equal to the first key |
| Dicts.SetEntries | app/routers/products.py:68 | after `d[k] = v`, every entry is an old entry or the new one |
| Dicts.GetAt | app/services/recommendation_engine.py:212 | in a dictionary with unique keys, reading an entry's key gives that entry's value |
| Text.Lower | scrapers/ingest_beymen.py:135 | `str.lower` keeps the length and lower-cases each character (ASCII letters only) |
| Text.Upper | scrapers/ingest_beymen.py:215 | `str.upper` keeps the length and upper-cases each character (ASCII letters only) |
| Text.LowerIdempotent | app/main.py:277 | lower-casing twice is lower-casing once |
| Text.LowerConcat | scrapers/ingest_beymen.py:135 | lower-casing a concatenation lower-cases each part |
| Text.ContainsAt | app/main.py:280 | `sub in s` holds whenever `sub` occurs at some position of `s` |
| Text.ContainsWitness | app/main.py:280 | when `sub in s` holds, there is a position of `s` where `sub` occurs |
| Text.ContainsInConcat | scrapers/ingest_beymen.py:135 | text found in one part is found in the concatenation, on either side |
| Text.ContainsLower | scrapers/ingest_beymen.py:135 | an occurrence survives lower-casing both strings |
| Text.Before | scrapers/ingest_beymen.py:221 | `s.split(c)[0]` is the longest prefix of `s` without `c`, ending where the first `c` stands |
| Text.Filter | scrapers/ingest_beymen.py:222 | removing the unwanted characters leaves only kept characters of the input |
| Text.FilterAll | scrapers/ingest_beymen.py:222 | filtering a string whose characters are all kept changes nothing |
| Numbers.RoundScaled | app/services/body_estimator.py:131 | `round(x, n)` lies within half a unit of the n-th decimal place of `x` |
| Numbers.Round1 | app/services/body_estimator.py:131 | `round(x, 1)` is within 0.05 of `x` |
| Numbers.Round2 | app/services/body_estimator.py:177-178 | `round(x, 2)` is within 0.005 of `x` |
| Numbers.Round1Monotonic | app/services/body_estimator.py:131 | rounding to one decimal keeps the order of its inputs |
| Numbers.Round1NonNegative | app/services/body_estimator.py:131 | rounding a non-negative value gives a non-negative value |
| Numbers.Trunc | app/services/recommendation_engine.py:411 | `int(x)` cuts toward zero: the largest integer not above a non-negative `x`, the smallest not below a negative one |
| BodyEstimator.BmiTimesSquaredHeight | app/services/body_estimator.py:77-80 | BMI times the squared height in metres is the weight |
| BodyEstimator.BmiMonotonic | app/services/body_estimator.py:77-80 | at a fixed height, more weight never gives a lower BMI |
| BodyEstimator.CalculateBmi | app/services/body_estimator.py:77-80 | `calculate_bmi`: weight over the squared height in metres, on a non-zero height; no contract of its own, its meaning is stated by BmiTimesSquaredHeight and BmiMonotonic |
| BodyEstimator.AgeFactor | app/services/body_estimator.py:125-129 | the age factor lies between 1 and 1.05; it is 1 for chest and shoulder and at ages up to 40; otherwise it is 1 plus 0.2% per year over 40, capped at 5% |
| BodyEstimator.EffectiveShape | app/services/body_estimator.py:105-106 | a missing body shape reads as average |
| BodyEstimator.BmiFactor | app/services/body_estimator.py:108-122 | one plus the relative deviation of BMI from the reference 22.5, times the part's impact; no contract of its own, stated by BmiFactorMonotonic and BmiFactorLowerBound |
| BodyEstimator.Unrounded | app/services/body_estimator.py:113-129 | one part before rounding: height times base ratio, shape modifier, BMI factor and age factor; no contract of its own, stated by UnroundedAboveOne and MoreWeightNeverShrinks |
| BodyEstimator.Estimate | app/services/body_estimator.py:113-131 | one part rounded to a tenth, with a missing shape read as average; no contract of its own, stated by EstimatedLookup and EstimatesPositiveOnValidRange |
| BodyEstimator.PartEntries | app/services/body_estimator.py:113-131 | one measurement entry per body part, in the order of the base-ratio table |
| BodyEstimator.Layout | app/services/body_estimator.py:111-137 | the result has the keys chest, waist, hip, shoulder, foot_length, in that order |
| BodyEstimator.LayoutLookup | app/services/body_estimator.py:111-137 | each body part's key reads its estimate, and foot_length reads the foot length |
| BodyEstimator.EstimatedMeasurements | app/services/body_estimator.py:82-137 | the estimate carries exactly the five measurement keys, in source order |
| BodyEstimator.EstimateMeasurements | app/services/body_estimator.py:82-137 | the loop over the base ratios builds exactly the estimate |
| BodyEstimator.NewPartName | app/services/body_estimator.py:113-131 | each part the loop reaches is not yet in the result, so it is appended |
| BodyEstimator.EstimatedLookup | app/services/body_estimator.py:113-135 | each part reads its rounded estimate; foot length is `round(height * 0.153, 1)` |
| BodyEstimator.ReferenceBodyFollowsBaseRatios | app/services/body_estimator.py:22-27 | at the reference BMI of 22.5, an average shape and no adjustment for age, each measurement is `round(height * base ratio, 1)` |
| BodyEstimator.FootLengthDependsOnHeightOnly | app/services/body_estimator.py:133-135 | foot length does not depend on weight, shape or age |
| BodyEstimator.AgeAdjustsOnlyWaistAndHip | app/services/body_estimator.py:125-129 | age changes only waist and hip, by the capped age factor, and only above 40 |
| BodyEstimator.MoreWeightNeverShrinks | app/services/body_estimator.py:108-131 | at a fixed height, shape and age, more weight never gives a smaller measurement, before or after rounding |
| BodyEstimator.BmiFactorMonotonic | app/services/body_estimator.py:109-122 | the BMI factor of every part grows with weight |
| BodyEstimator.ProportionLowerBound | app/services/body_estimator.py:22-61 | every base ratio times its shape modifier is at least 0.228 |
| BodyEstimator.BmiLowerBound | app/models/schemas.py:109-110 | within the request's height and weight bounds, BMI is at least 4.8 |
| BodyEstimator.EstimatesPositiveOnValidRange | app/services/body_estimator.py:82-137 | within the request's bounds, every estimate is above 1 cm before rounding and positive after |
| BodyEstimator.UnroundedAboveOne | app/services/body_estimator.py:113-129 | within the request's bounds, every measurement before rounding exceeds 1 cm, whatever the shape and age |
| BodyEstimator.BmiFactorLowerBound | app/services/body_estimator.py:109-122 | within the request's bounds, the BMI factor is at least 0.05 |
| BodyEstimator.ShapedBaseLowerBound | app/services/body_estimator.py:115-119 | at a height of 100 cm or more, height times ratio times modifier is at least 22.8 cm |
| BodyEstimator.ValidRequestGivesPositiveBody | app/services/body_estimator.py:82-137 | a validated recommendation request yields a positive estimate for every body part |
| BodyEstimator.BmiCategoryOf | app/services/body_estimator.py:159-166 | underweight exactly below a BMI of 18.5, normal exactly from 18.5 to below 25, overweight exactly from 25 to below 30, obese exactly from 30 |
| BodyEstimator.BmiCategoryMonotonic | app/services/body_estimator.py:159-166 | a higher BMI never gives a lighter category |
| BodyEstimator.GetBodyAnalysis | app/services/body_estimator.py:139-180 | the analysis fails exactly when hip or waist is zero (division by zero); otherwise it reports the estimate, the rounded BMI and its category, and both rounded ratios |
| BodyEstimator.AnalysisDefinedOnValidRange | app/services/body_estimator.py:169-170 | within the request's bounds, neither ratio divides by zero |
| StableSort.Insert | app/services/recommendation_engine.py:386 | inserting one entry lengthens the sequence by one |
| StableSort.SortDescending | app/services/recommendation_engine.py:386 | sorting keeps the length |
| StableSort.InsertPermutes | app/services/recommendation_engine.py:386 | insertion adds exactly the inserted entry |
| StableSort.InsertKeepsDescending | app/services/recommendation_engine.py:386 | inserting into a descending sequence keeps it descending |
| StableSort.SortPermutes | app/services/recommendation_engine.py:386 | the sorted sequence is a permutation of the input |
| StableSort.SortIsDescending | app/services/recommendation_engine.py:386 | the sorted sequence is in descending score order |
| StableSort.FirstMax | app/services/recommendation_engine.py:386-387 | the position of the first entry with the highest score |
| StableSort.SortHeadIsFirstMax | app/services/recommendation_engine.py:386-387 | the stable sort puts first the earliest of the highest-scoring entries, as Python's stable `sorted` does |
| StableSort.Without | app/services/recommendation_engine.py:386 | the list with one position taken out: one shorter, the rest in order |
| StableSort.SortExtractsFirstMax | app/services/recommendation_engine.py:386 | stability: the sort is the earliest highest-scoring item followed by the sort of the rest |
| StableSort.SelectDescending | app/services/recommendation_engine.py:386 | a reference stable sort that repeatedly takes the earliest maximum; only its length is its contract |
| StableSort.SortIsSelection | app/services/recommendation_engine.py:386 | the insertion sort equals the selection sort on every input, so items of equal score keep their input order |
| StableSort.RunnerUp | app/services/recommendation_engine.py:390-392 | the runner-up to the first maximum: another position, scoring at least as much as every other one, and the earliest such |
| StableSort.SortSecondIsRunnerUp | app/services/recommendation_engine.py:390-392 | the second sorted entry is the runner-up: of the entries other than the first maximum, the earliest with the highest score |
| StableSort.RunnerUpUnique | app/services/recommendation_engine.py:390-392 | only one position meets the runner-up's description |
| StableSort.SortSecondIsAnyRunnerUp | app/services/recommendation_engine.py:390-392 | whichever position meets the runner-up's description holds the second item of the sort |
| StableSort.SortKeepsKeysDistinct | app/services/recommendation_engine.py:386 | sorting a dictionary's items keeps their keys unique |
| RecommendationEngine.BaseEase | app/services/recommendation_engine.py:29-50 | the base ease of every fit type and measurement is at least 2 cm (5 cm for a measurement the table lacks) |
| RecommendationEngine.FirstStretchMatch | app/services/recommendation_engine.py:95-101 | the reduction of the first stretch-table word inside the lower-cased fiber name; no contract of its own, stated by FirstStretchMatchIsFirst |
| RecommendationEngine.FirstStretchMatchIsFirst | app/services/recommendation_engine.py:97-101 | a fabric takes the reduction of the first stretch entry its name contains, or none when it contains none |
| RecommendationEngine.TotalStretch | app/services/recommendation_engine.py:93-101 | the uncapped sum of each fiber's reduction times its share, in dictionary order; no contract of its own, stated by TotalStretchBounds and StretchContributionBounds |
| RecommendationEngine.StretchReduction | app/services/recommendation_engine.py:103-104 | the stretch reduction never exceeds the 4 cm cap, and with no negative percentage it is at least 0, so it lies in [0, 4] |
| RecommendationEngine.CalculateStretchReduction | app/services/recommendation_engine.py:83-104 | the loop over the composition computes exactly the capped total reduction |
| RecommendationEngine.StretchTableBounds | app/services/recommendation_engine.py:54-61 | every stretch reduction in the table lies between 1 and 2.5 cm |
| RecommendationEngine.TotalStretchBounds | app/services/recommendation_engine.py:93-101 | with non-negative percentages, the total reduction lies between 0 and 2.5% of the summed percentages |
| RecommendationEngine.StretchContributionBounds | app/services/recommendation_engine.py:98-100 | one fabric contributes between 0 and 2.5% of its percentage |
| RecommendationEngine.StretchCapUnreachedForValidComposition | app/services/recommendation_engine.py:104 | for a composition that passes validation, the 4 cm cap never applies and the reduction stays at or below 2.525 cm |
| RecommendationEngine.CottonHasNoStretch | app/services/recommendation_engine.py:83-104 | pure cotton gives no stretch reduction |
| RecommendationEngine.ElastaneBlendReduction | app/services/recommendation_engine.py:83-104 | 95% cotton with 5% elastane reduces the ease by 0.125 cm |
| RecommendationEngine.EaseAfterStretch | app/services/recommendation_engine.py:127-133 | the ease is never negative; it is never below base minus stretch; it is at least 1 cm unless the stretch exceeds 2 cm; stretch never raises it |
| RecommendationEngine.EaseAntitoneInStretch | app/services/recommendation_engine.py:127-133 | more stretch never gives more ease |
| RecommendationEngine.RequiredEase | app/services/recommendation_engine.py:106-133 | the required ease is non-negative and at least the base ease less the 4 cm cap |
| RecommendationEngine.CalculateRequiredEase | app/services/recommendation_engine.py:106-133 | the method computes the required ease |
| RecommendationEngine.NoStretchKeepsBaseEase | app/services/recommendation_engine.py:123-133 | a fabric without stretch keeps the base ease |
| RecommendationEngine.GetFitStatus | app/services/recommendation_engine.py:135-164 | `_get_fit_status`: the status band of the space-to-ease ratio; no contract of its own, stated by FitStatusBands, FitStatusBandsWithoutEase and FitStatusMonotonic |
| RecommendationEngine.FitStatusBands | app/services/recommendation_engine.py:150-164 | with positive ease: tight below 0.5 times the ease, fitted below 0.8, comfortable below 1.2, loose below 1.5, very loose from there, each an if-and-only-if |
| RecommendationEngine.FitStatusBandsWithoutEase | app/services/recommendation_engine.py:150-164 | with zero ease the ratio is computed against 5 cm: tight below 2.5 cm, fitted from 2.5 to below 4, comfortable from 4 to below 6, loose from 6 to below 7.5, very loose from 7.5 |
| RecommendationEngine.NegativeSpaceIsTight | app/services/recommendation_engine.py:150-157 | a garment smaller than the body is tight |
| RecommendationEngine.FitStatusMonotonic | app/services/recommendation_engine.py:150-164 | more room never gives a tighter status |
| RecommendationEngine.BaseFitScore | app/services/recommendation_engine.py:232-244 | the per-measurement score before the preference: a penalty when the garment is smaller, else a fixed score per status; no contract of its own, stated by FitScoreBounds and FitScoreUnimodal |
| RecommendationEngine.PreferenceBonus | app/services/recommendation_engine.py:246-250 | ten points when the status leans the way the shopper asked; no contract of its own, stated by PreferenceShiftsScore |
| RecommendationEngine.FitScore | app/services/recommendation_engine.py:228-250 | the per-measurement score with the preference applied; no contract of its own, stated by FitScoreBounds, FitScoreUnimodal and PreferenceShiftsScore |
| RecommendationEngine.FitScoreBounds | app/services/recommendation_engine.py:232-250 | a measurement's score lies between 0 and 100, and is 100 exactly when comfortable |
| RecommendationEngine.FitScoreUnimodal | app/services/recommendation_engine.py:232-244 | with no preference, for any available space, negative included, the score climbs with room up to comfortable (out of the `max(0, 30 + 5s)` penalty and through the bands) and falls after it |
| RecommendationEngine.PreferenceShiftsScore | app/services/recommendation_engine.py:247-250 | "tighter" adds 10 exactly to tight and fitted, "looser" exactly to loose and very loose |
| RecommendationEngine.MeasurementWeight | app/services/recommendation_engine.py:191-196 | every measurement weighs between 0.1 and 0.4 (0.1 for one the table lacks) |
| RecommendationEngine.CompareMeasurement | app/services/recommendation_engine.py:211-262 | one pass of the per-measurement loop body gives that measurement's component |
| RecommendationEngine.TallyStep | app/services/recommendation_engine.py:210-262 | each loop step adds the next measurement's component to the running totals |
| RecommendationEngine.SizeScore | app/services/recommendation_engine.py:265-270 | a size's score lies between 0 and 100 |
| RecommendationEngine.ScoreSize | app/services/recommendation_engine.py:166-270 | the method computes the size's score and breakdowns |
| RecommendationEngine.TallyMapping | app/services/recommendation_engine.py:207-262 | the loop over the measurement mapping accumulates exactly the weights, weighted scores and breakdowns of the measurements both sides have |
| RecommendationEngine.ComponentBounds | app/services/recommendation_engine.py:211-262 | a measured component has a score of 0 to 100, a weight of 0.1 to 0.4 and non-negative ease, and is labelled with its body key |
| RecommendationEngine.TallyBounds | app/services/recommendation_engine.py:207-262 | the weighted score is between 0 and 100 times the weight; the weight is between 0.1 and 0.4 per breakdown; there is at most one breakdown per mapping entry |
| RecommendationEngine.ComparisonSound | app/services/recommendation_engine.py:211-262 | every component of the per-measurement comparison is within those bounds |
| RecommendationEngine.SizeScoreIsWeightedMean | app/services/recommendation_engine.py:264-270 | with any measurement compared, the score is the weighted mean of the measurement scores; with none, it is 80 |
| RecommendationEngine.UniformTally | app/services/recommendation_engine.py:252-254 | when every compared measurement scores the same, the weighted total is that score times the weight |
| RecommendationEngine.UniformMean | app/services/recommendation_engine.py:266 | then the weighted mean is that score |
| RecommendationEngine.UniformScoresAverageToThemselves | app/services/recommendation_engine.py:264-270 | a size whose measurements all score the same gets that score |
| RecommendationEngine.PhraseTableCoverage | app/services/recommendation_engine.py:286-317 | the description table has a phrase for each of chest, waist, hip and shoulder, at every status, and for nothing else |
| RecommendationEngine.Firsts | app/services/recommendation_engine.py:319-326 | the English phrases, one per issue, in order |
| RecommendationEngine.Seconds | app/services/recommendation_engine.py:319-326 | the Turkish phrases, one per issue, in order |
| RecommendationEngine.Issues | app/services/recommendation_engine.py:319-326 | the English and Turkish phrases of the flagged breakdowns, in order; no contract of its own, stated by IssuesAreFlaggedPhrases, FlaggedPhrasesAreIssues and UnflaggedIsSilent |
| RecommendationEngine.FlaggedPhrasesAreIssues | app/services/recommendation_engine.py:319-326 | every flagged breakdown's phrase is among the issues |
| RecommendationEngine.FitDescription | app/services/recommendation_engine.py:272-331 | `_generate_fit_description`: the issues joined by ". ", or the good-fit texts; no contract of its own, stated by GenerateFitDescription and GoodFitIffNothingFlagged |
| RecommendationEngine.GenerateFitDescription | app/services/recommendation_engine.py:272-331 | the method builds the English and Turkish descriptions |
| RecommendationEngine.CollectIssues | app/services/recommendation_engine.py:319-326 | the loop collects one English and one Turkish phrase per flagged breakdown, in order |
| RecommendationEngine.IssuesStep | app/services/recommendation_engine.py:319-326 | each step of the loop adds the phrase of a flagged breakdown and nothing for an unflagged one |
| RecommendationEngine.PairsSnoc | app/services/recommendation_engine.py:324-326 | appending a phrase pair appends its English and its Turkish half |
| RecommendationEngine.IssuesAreFlaggedPhrases | app/services/recommendation_engine.py:319-326 | there are no issues exactly when nothing is flagged; each issue is the phrase of a flagged breakdown |
| RecommendationEngine.GoodFitIffNothingFlagged | app/services/recommendation_engine.py:328-331 | each description is the good-fit text exactly when no breakdown is tight, loose or very loose |
| RecommendationEngine.UnflaggedIsSilent | app/services/recommendation_engine.py:321 | adding a fitted or comfortable breakdown leaves both descriptions as they were |
| RecommendationEngine.TurkishMirrorsEnglish | app/services/recommendation_engine.py:319-326 | the Turkish description lists the same issues as the English one, position by position |
| RecommendationEngine.TallyMeasurements | app/services/recommendation_engine.py:256-262 | each breakdown is labelled with a body key of the mapping |
| RecommendationEngine.ScoredBreakdownsHavePhrases | app/services/recommendation_engine.py:286-317 | every breakdown a size produces has a description phrase for its status |
| RecommendationEngine.LabelledBreakdownsHavePhrases | app/services/recommendation_engine.py:286-326 | when every pair names a known body key and each component carries its pair's key, every breakdown has a description phrase |
| RecommendationEngine.ScoreSizes | app/services/recommendation_engine.py:366-383 | the loop scores every size of the product under its size code |
| RecommendationEngine.ScoresOf | app/services/recommendation_engine.py:366-383 | `size_scores`: each size of the table with its score; no contract of its own, stated by ScoresOfPositions, ScoresOfEmpty and ScoresOfInRange |
| RecommendationEngine.Ranking | app/services/recommendation_engine.py:386 | `sorted_sizes`: the size scores in stable descending order; no contract of its own, stated by RankingHead and RankingSecond |
| RecommendationEngine.Notes | app/services/recommendation_engine.py:401-406 | the size-up note when a breakdown is tight, else the size-down note when one is very loose; no contract of its own, stated by NotesOnlyWithIssues |
| RecommendationEngine.Respond | app/services/recommendation_engine.py:387-416 | the response built from the ranking; no contract of its own, stated by RespondWinner and RespondAlternative |
| RecommendationEngine.RecommendResult | app/services/recommendation_engine.py:333-416 | `recommend` as a function; no contract of its own, stated by RecommendFailsExactly, RecommendPicksFirstBestSize and RecommendConfidenceInRange |
| RecommendationEngine.Recommend | app/services/recommendation_engine.py:333-416 | the method computes the recommendation |
| RecommendationEngine.RespondTo | app/services/recommendation_engine.py:387-416 | the response is built from the sorted sizes |
| RecommendationEngine.ScoresOfPositions | app/services/recommendation_engine.py:366-383 | with unique size codes, the i-th score is the i-th size's code and score, in product order |
| RecommendationEngine.ScoresOfEmpty | app/services/recommendation_engine.py:366-383 | there are no scores exactly when the product has no sizes |
| RecommendationEngine.BestExists | app/services/recommendation_engine.py:386-387 | a product with sizes has a first best-scoring size |
| RecommendationEngine.FirstMaxIsBest | app/services/recommendation_engine.py:386-387 | the first best-scoring size is the first maximum of the score table |
| RecommendationEngine.RankingHead | app/services/recommendation_engine.py:386-387 | the ranking starts with the first size that has the highest score |
| RecommendationEngine.RunnerUpAtScores | app/services/recommendation_engine.py:386-392 | the table's runner-up is exactly the sort's runner-up of the size scores |
| RecommendationEngine.RankingSecond | app/services/recommendation_engine.py:390-392 | a table of two or more sizes has a runner-up, and the second ranked entry is that size with its score: of the sizes other than the best, the earliest in the table with the highest score |
| RecommendationEngine.RespondWinner | app/services/recommendation_engine.py:387-416 | the response recommends the best size with its breakdowns, its truncated score, both descriptions of those breakdowns and their note |
| RecommendationEngine.RespondAlternative | app/services/recommendation_engine.py:389-394 | an alternative is given exactly when another size scores within 15 points of the best; it is then the runner-up (the earliest of the other sizes with the highest score), never the recommended one |
| RecommendationEngine.NotesOnlyWithIssues | app/services/recommendation_engine.py:401-406 | a note appears only with a description that is not the good-fit one; the size-up note appears exactly when some breakdown is tight |
| RecommendationEngine.RecommendFailsExactly | app/services/recommendation_engine.py:360-387 | the recommendation fails exactly for a zero height (division by zero) or a product without sizes (empty ranking), and tells the two apart |
| RecommendationEngine.ScoresOfInRange | app/services/recommendation_engine.py:366-383 | scores between 0 and 100 stay so in the score table |
| RecommendationEngine.SetInRange | app/services/recommendation_engine.py:383 | storing an in-range score keeps every score in range |
| RecommendationEngine.SortedInRange | app/services/recommendation_engine.py:386 | sorting keeps every score in range |
| RecommendationEngine.RespondConfidence | app/models/schemas.py:140-151 | a response built from in-range scores has a confidence between 0 and 100, as the response schema requires |
| RecommendationEngine.RecommendConfidenceInRange | app/models/schemas.py:143 | every successful recommendation has a confidence between 0 and 100 |
| RecommendationEngine.RecommendPicksFirstBestSize | app/services/recommendation_engine.py:333-416 | for a valid request, the recommendation is the first best-scoring size with its breakdowns and truncated score; an alternative exists exactly when another size scores within 15 points, is then the runner-up (the earliest of the other sizes with the highest score), and is never the recommended size |
| IngestBeymen.Span | scrapers/ingest_beymen.py:112 | a greedy run of the pattern's class: the longest prefix of class characters |
| IngestBeymen.DropSpaces | scrapers/ingest_beymen.py:112 | skipping `\s*` never lengthens the text |
| IngestBeymen.AfterDigits | scrapers/ingest_beymen.py:112 | the part of the pattern after the digits, when it matches, yields a non-empty fiber word and strictly less text |
| IngestBeymen.MatchHere | scrapers/ingest_beymen.py:112 | a match of the fabric pattern at the digit run that opens the text; no contract of its own, stated by MatchHereShorter, MatchHereAt and MatchAt |
| IngestBeymen.MatchHereShorter | scrapers/ingest_beymen.py:112-113 | a match at the front consumes text and pairs a digit run with a fiber word |
| IngestBeymen.Matches | scrapers/ingest_beymen.py:112-113 | `re.findall` of the fabric pattern; its contract is termination, its meaning is stated by MatchesAreMatches and SkipNonDigit |
| IngestBeymen.MatchesAreMatches | scrapers/ingest_beymen.py:112-113 | every pair `re.findall` returns is a run of digits and a fiber word |
| IngestBeymen.LookupFiber | scrapers/ingest_beymen.py:117-120 | the inner loop finds the first mapping entry contained in the word |
| IngestBeymen.FirstFiber | scrapers/ingest_beymen.py:117-120 | the fiber of the first mapping entry inside the word; no contract of its own, stated by FirstFiberNamesFiber and LookupFiber |
| IngestBeymen.Compose | scrapers/ingest_beymen.py:115-120 | the composition dictionary the matches build; stated by ComposeKeepsLastMention, ComposeKeys and ComposeEmptyIffNoFiber |
| IngestBeymen.ComposeMatches | scrapers/ingest_beymen.py:115-120 | the outer loop records each recognised fiber with the percentage of its match |
| IngestBeymen.ParseFabricComposition | scrapers/ingest_beymen.py:80-126 | the method computes the parsed composition |
| IngestBeymen.FabricComposition | scrapers/ingest_beymen.py:80-126 | `parse_fabric_composition` as a function; no contract of its own, stated by FabricCompositionShape |
| IngestBeymen.MappingNamesFibers | scrapers/ingest_beymen.py:88-107 | every entry of the fiber mapping names one of the ten English fibers |
| IngestBeymen.FirstFiberNamesFiber | scrapers/ingest_beymen.py:117-120 | a recognised word maps to one of the English fibers |
| IngestBeymen.ComposeKeepsLastMention | scrapers/ingest_beymen.py:115-120 | a fiber mentioned several times keeps the percentage of its last mention |
| IngestBeymen.ComposeKeys | scrapers/ingest_beymen.py:109-120 | the composition lists each fiber once, and only English fiber names |
| IngestBeymen.ComposeEmptyIffNoFiber | scrapers/ingest_beymen.py:115-123 | nothing is recorded exactly when no match names a known fiber |
| IngestBeymen.FabricCompositionShape | scrapers/ingest_beymen.py:80-126 | the result is never empty and has unique English fiber keys; it is 100% cotton when no fiber is recognised, and the recorded matches otherwise |
| IngestBeymen.FitTypeOfText | scrapers/ingest_beymen.py:137-146 | the detector never answers oversized |
| IngestBeymen.DetectFitType | scrapers/ingest_beymen.py:133-146 | the detected fit type is never oversized |
| IngestBeymen.LowerTextOfLowerParts | scrapers/ingest_beymen.py:135 | lower-casing the parts first gives the same text to search |
| IngestBeymen.DetectFitTypeIgnoresCase | scrapers/ingest_beymen.py:135 | detection does not depend on letter case |
| IngestBeymen.TitleInText | scrapers/ingest_beymen.py:135 | a keyword in the title is found in the searched text |
| IngestBeymen.SlimTitleWins | scrapers/ingest_beymen.py:137-138 | a title saying "slim fit" gives slim fit, whatever the description says |
| IngestBeymen.SpanOf | scrapers/ingest_beymen.py:112 | the run of class characters stops at the first character outside the class |
| IngestBeymen.DropSpacesOf | scrapers/ingest_beymen.py:112 | `\s*` consumes exactly the leading whitespace |
| IngestBeymen.SkipNonDigit | scrapers/ingest_beymen.py:112-113 | a leading character that is not a digit starts no match and is skipped |
| IngestBeymen.FiberLetterIsPlain | scrapers/ingest_beymen.py:112 | a fiber letter is never whitespace or `%` |
| IngestBeymen.WordStage | scrapers/ingest_beymen.py:112 | a fiber word followed by a non-letter is read whole, with the rest left over |
| IngestBeymen.AfterDigitsNoPercent | scrapers/ingest_beymen.py:112 | "97 Cotton": spaces and then a word match without a percent sign |
| IngestBeymen.AfterDigitsPercent | scrapers/ingest_beymen.py:112 | "97% Cotton": a percent sign between optional spaces is consumed |
| IngestBeymen.MatchHereAt | scrapers/ingest_beymen.py:112 | a match starting at a digit run takes the whole run, greedily |
| IngestBeymen.MatchAt | scrapers/ingest_beymen.py:112-113 | a digit run followed by a fiber word is the first match, and matching goes on after the word |
| IngestSizeChart.Headers | scrapers/ingest_beymen.py:169-173 | one lower-cased header per header cell, in order |
| IngestSizeChart.AddCellSizeCode | scrapers/ingest_beymen.py:212-215 | a size cell sets the row's size code to its upper-cased text; other cells keep it |
| IngestSizeChart.AddCellValues | scrapers/ingest_beymen.py:212-224 | a measurement cell that converts stores its number under its key; a size or unconvertible cell stores nothing |
| IngestSizeChart.ReadRow | scrapers/ingest_beymen.py:201-224 | the size code and values read from a row's first cells; no contract of its own, stated by SizeCodeIsLastSizeCell, RowValuesAreLastCells and ReadRowIgnoresLaterCells |
| IngestSizeChart.ReadRowCells | scrapers/ingest_beymen.py:201-224 | the cell loop reads the row's size code and measurements |
| IngestSizeChart.ReadBodyRows | scrapers/ingest_beymen.py:195-227 | the row loop builds the chart |
| IngestSizeChart.ChartRows | scrapers/ingest_beymen.py:195-227 | the chart the body rows build; no contract of its own, stated by ChartIsLastRowPerSize, ChartEntriesComplete and ShortRowSkipped |
| IngestSizeChart.ParseSizeChartTable | scrapers/ingest_beymen.py:161-229 | no table gives an empty chart; otherwise the body rows are read under the first row's headers |
| IngestSizeChart.SizeChart | scrapers/ingest_beymen.py:161-229 | `parse_size_chart_table` on the table's rows; no contract of its own, stated by ParseSizeChartTable |
| IngestSizeChart.ReadRowIgnoresLaterCells | scrapers/ingest_beymen.py:204-206 | cells after those read do not matter |
| IngestSizeChart.ExtraCellsIgnored | scrapers/ingest_beymen.py:205-206 | cells beyond the last header are ignored |
| IngestSizeChart.ShortRowSkipped | scrapers/ingest_beymen.py:198-199 | a row of fewer than two cells leaves the chart as if it were absent |
| IngestSizeChart.ChartRowsStep | scrapers/ingest_beymen.py:196-227 | each row adds its entry to the chart built so far |
| IngestSizeChart.LastSizeHeaderIsLast | scrapers/ingest_beymen.py:214-215 | finds the last size column among those read, or none when there is none |
| IngestSizeChart.SizeCodeIsLastSizeCell | scrapers/ingest_beymen.py:214-215 | the size code is the upper-cased text of the last size column, or none without one |
| IngestSizeChart.SizeCodeStep | scrapers/ingest_beymen.py:204-215 | one more cell sets the size code to its upper-cased text under a size header and keeps the code otherwise |
| IngestSizeChart.RowValuesAreLastCells | scrapers/ingest_beymen.py:216-224 | each measurement key holds the number of its last convertible cell |
| IngestSizeChart.NoSizeValue | scrapers/ingest_beymen.py:214-216 | no measurement is stored under "size" |
| IngestSizeChart.RowValuesDistinct | scrapers/ingest_beymen.py:222 | a row's measurements have unique keys |
| IngestSizeChart.UnknownHeaderVerbatim | scrapers/ingest_beymen.py:212 | a header the mapping lacks is used as its own key |
| IngestSizeChart.ChartIsLastRowPerSize | scrapers/ingest_beymen.py:226-227 | a size code repeated in several rows keeps the measurements of its last complete row |
| IngestSizeChart.ChartEntriesComplete | scrapers/ingest_beymen.py:226-227 | the chart lists each size code once, and only with a non-empty code and measurements |
| IngestSizeChart.CellValueOfRange | scrapers/ingest_beymen.py:219-221 | a range "104-106" reads as its first value |
| IngestSizeChart.CellValue | scrapers/ingest_beymen.py:219-224 | a numeric cell read as its number, of a range only the part before the dash; no contract of its own, stated by CellValueOfRange and CellValueOfDigits |
| IngestSizeChart.CellValueOfDigits | scrapers/ingest_beymen.py:222 | a cell of digits reads as its integer value |
| IngestSizeChart.ParseNumber | scrapers/ingest_beymen.py:222-224 | `float` of a string of digits and dots; no contract of its own, stated by ParseNumberNonNegative and CellValueOfDigits |
| IngestSizeChart.ParseNumberNonNegative | scrapers/ingest_beymen.py:222 | a converted cell is never negative |
| IngestSizeChart.Pow10 | scrapers/ingest_beymen.py:222 | a power of ten is at least 1 |
| IngestSizeChart.FirstContainedKey | scrapers/ingest_beymen.py:329-333 | finds the first chart key that the brand text contains, or none when it contains none |
| IngestSizeChart.ChooseFallback | scrapers/ingest_beymen.py:329-336 | the loop picks the first fallback chart whose key the brand contains, else the default chart |
| IngestSizeChart.FallbackChoice | scrapers/ingest_beymen.py:329-336 | the for-else choice of fallback chart; no contract of its own, stated by ChooseFallback and FallbackByKeys |
| IngestSizeChart.SelectMeasurements | scrapers/ingest_beymen.py:327-336 | parsed measurements are kept; an empty chart is replaced by the brand's fallback |
| IngestSizeChart.ProductChart | scrapers/ingest_beymen.py:327-336 | the page's chart or the brand's fallback; no contract of its own, stated by ProductChartNotEmpty and NoBrandGetsDefault |
| IngestSizeChart.FallbackByKeys | scrapers/ingest_beymen.py:35-55 | a brand containing "beymen club" gets that chart, else one containing "network" gets the Network chart, else the default chart |
| IngestSizeChart.NoBrandGetsDefault | scrapers/ingest_beymen.py:328 | a product without a brand gets the default chart |
| IngestSizeChart.ProductChartNotEmpty | scrapers/ingest_beymen.py:327-336 | every product ends up with a non-empty chart |
| Products.DumpMeasurements | app/routers/products.py:55-66 | the stored sizes are the request's sizes, one dump each, in order |
| Products.DumpKeepsSizes | app/routers/products.py:55-66 | storage keeps the request's size codes in order |
| Products.Record | app/routers/products.py:55-66 | the record `ingest_product` stores; no contract of its own, stated by IngestThenGet |
| Products.Lookup | app/routers/products.py:83-108 | 404 exactly for an unknown id, 403 exactly for another tenant's product, otherwise the stored record |
| Products.Listing | app/routers/products.py:116-139 | the total is the number of products listed |
| Products.TenantSummaries | app/routers/products.py:126-139 | the listing lines of one tenant's records, in store order; no contract of its own, stated by ListingIsTenantRecords and ListingAfterAppend |
| Products.ListingIsTenantRecords | app/routers/products.py:126-139 | the listing holds exactly the summaries of the caller's records |
| Products.ListingAfterAppend | app/routers/products.py:126-139 | a record added at the end adds its line at the end of its owner's listing only |
| Products.ProductStore.constructor | app/routers/products.py:19 | the store starts empty |
| Products.ProductStore.IngestProduct | app/routers/products.py:29-75 | the record is stored under the new id, ids stay unique and matched to their records, and the response reports the id, the SKU and the number of sizes, which is the number of distinct size keys |
| Products.ProductStore.GetProduct | app/routers/products.py:83-108 | the lookup answers as `Lookup` does |
| Products.ProductStore.ListProducts | app/routers/products.py:116-139 | the listing of the caller's products |
| Products.ProductStore.GetProductById | app/routers/products.py:142-149 | the record under the id, or nothing exactly when the id is unknown; a record found carries the id it was looked up by |
| Products.IngestAppends | app/routers/products.py:68 | ingesting under a fresh id appends exactly one entry |
| Products.IngestLeavesOthers | app/routers/products.py:68 | ingesting leaves every other product unchanged |
| Products.IngestThenGet | app/routers/products.py:68-108 | the owner reads back the ingested record with the request's sizes and the reported count; any other tenant gets 403 |
| Products.IngestThenList | app/routers/products.py:68-139 | a fresh product appears at the end of its owner's listing and in no other tenant's |
| Auth.Cleared | app/middleware/auth.py:87-92 | clearing a key removes it and keeps every other entry; clearing with no key empties the cache |
| Auth.Validation | app/middleware/auth.py:24-85 | `validate_api_key` without a database, as a result and the cache afterwards; no contract of its own, stated by the lemmas below and by ValidateApiKey |
| Auth.AuthMiddleware.constructor | app/middleware/auth.py:20-22 | the cache starts empty |
| Auth.AuthMiddleware.ValidateApiKey | app/middleware/auth.py:24-85 | answers and updates the cache as `Validation` does |
| Auth.AuthMiddleware.ClearCache | app/middleware/auth.py:87-92 | the cache afterwards is the cleared one |
| Auth.CacheGrowsOnlyOnSuccess | app/middleware/auth.py:49-60 | validation never removes a cache entry and changes the cache only by recording a successful key |
| Auth.SuccessIsCached | app/middleware/auth.py:53-60 | after a success, the key is cached with the tenant returned |
| Auth.ValidateTwice | app/middleware/auth.py:49-60 | validating a key again gives the same answer and changes nothing |
| Auth.MissingKeyRefused | app/middleware/auth.py:42-46 | a missing or empty key is refused with 401, and the cache is not touched |
| Auth.CachedKeyAnswered | app/middleware/auth.py:49-50 | a cached key is answered from the cache |
| Auth.TestKeyAccepted | app/middleware/auth.py:53-60 | the uncached test key yields the test tenant and is cached |
| Auth.UnknownKeyRefused | app/middleware/auth.py:82-85 | any other key is refused with 401 |
| Auth.ClearAbsentKey | app/middleware/auth.py:87-90 | clearing a key that is not cached changes nothing |
| Auth.ClearThenValidate | app/middleware/auth.py:87-90 | after a key is cleared, the test key is re-cached on its next use and any other key is refused |
| App.ProductImage | app/main.py:119-122 | the product's image URL when its key is mapped, else the default URL; always one of the mapped URLs |
| App.First | app/main.py:143-146 | the index of the first item that matches, or none exactly when no item matches |
| App.Pick | app/main.py:281 | `next((p for p in inventory if ...), None)`; no contract of its own, stated by PickSatisfies and PickIsFoundById |
| App.FindById | app/main.py:141-146 | `find_product_by_id` on a given inventory; no contract of its own, stated by FindByIdIsFirst and FindOwnId |
| App.FindFirst | app/main.py:281 | `next(...)` over the inventory gives the first item that matches |
| App.FindProductById | app/main.py:141-146 | the loop finds the product with that id |
| App.FindByIdIsFirst | app/main.py:141-146 | nothing exactly when no item has the id; otherwise the first item with it |
| App.FindOwnId | app/main.py:141-146 | with unique ids, every item is found by its own id |
| App.DemoIdsDistinct | app/main.py:26-104 | the demo inventory's ids are unique |
| App.DemoImagesMapped | app/main.py:26-116 | every demo product has an image key that the URL table maps |
| App.GetComboSuggestion | app/main.py:149-170 | the loop gives the combination suggestion |
| App.ComboSuggestion | app/main.py:149-170 | `get_combo_suggestion` as a function; no contract of its own, stated by ComboIsComplementary |
| App.PickSatisfies | app/main.py:281 | a picked item is in the inventory and matches; nothing is picked exactly when nothing matches |
| App.ComboIsComplementary | app/main.py:149-170 | the suggestion is of another category: pants for a jacket, a jacket for a shirt, a shirt or jacket for pants, nothing for any other category; none only when that category is missing |
| App.FallbackOutfit | app/main.py:336-354 | the outfit reply lists jacket, shirt and pants, each when present |
| App.DetectIntent | app/main.py:280-336 | the if/elif chain of intents; no contract of its own, stated by IntentPriority |
| App.Fallback | app/main.py:275-361 | `fallback_response` on a given inventory; no contract of its own, stated by FallbackIgnoresCase, ReplyHasMessage and FallbackIdNonEmpty |
| App.IntentPriority | app/main.py:280-336 | the intent follows the keyword checks in order (jacket, pants, shirt, size, outfit), each an if-and-only-if; a shirt asks for blue before white |
| App.FallbackIgnoresCase | app/main.py:277 | the fallback reply does not depend on the message's letter case |
| App.ReplyIds | app/main.py:280-361 | a category intent with no matching product falls through to the welcome reply; one with a product recommends it with its combination; size and unmatched messages recommend nothing; the outfit recommends the first jacket and the first pants |
| App.IntentProductMatches | app/main.py:281-315 | the chosen product is in the inventory, of the asked category, and of the asked shirt colour |
| App.ShirtColourMissing | app/main.py:310-313 | no shirt is chosen for a colour exactly when no shirt has that colour |
| App.PickIsFoundById | app/main.py:141-146 | an inventory item's id is always found |
| App.ReplyIdsResolve | app/main.py:476-503 | every id the fallback recommends resolves to a product |
| App.Resolve | app/main.py:476-503 | a card appears exactly when the id is non-empty and known; it is the card of the product with that id |
| App.ChatShowsReplyProducts | app/main.py:476-510 | with non-empty ids, the chat shows the fallback's message and a card for exactly the products it recommends |
| App.ChatShowsResolvedIds | app/main.py:476-510 | for any reply whose ids resolve, the chat has a card exactly for each id named, carrying that id, and passes the message through |
| App.ReplyHasMessage | app/main.py:277-361 | every fallback reply carries a message |
| App.FallbackIdNonEmpty | app/main.py:476 | an id that resolves is non-empty when every inventory id is |
| App.ChatUnresolvedIds | app/main.py:476-510 | a reply without a message gets the apology text; an unknown id gets no card; the conversation id is echoed |
| App.ChatReply | app/main.py:476-510 | the resolution step of `chat_with_ai`; no contract of its own, stated by ChatShowsReplyProducts, ChatShowsResolvedIds and ChatUnresolvedIds |
| App.ChatWithAi | app/main.py:452-510 | the chat response is built from the reply |

## Left out

- **Not modelled:**
  - I/O and the network: the OpenAI call, the scraper's browser session and its logging;
  - the database: the key lookup in `validate_api_key` and the product models of app/models/database.py;
  - FastAPI wiring: routing, dependency injection, CORS, the timing middleware, startup and shutdown;
  - app/config.py, the recommendations router, `get_inventory_for_prompt` and the inventory and health endpoints.
- **Values passed in:**
  - The chat model's answer: `ChatWithAi` takes it as a value.
  - App.ChatReply: an answer whose `"message"` is JSON `null` is treated like a missing key and gets the apology text. In the source, `ChatResponse(message=None)` would fail validation instead.
  - New product ids: `uuid4()` becomes a parameter of `IngestProduct`.
  - The inventory: `DEMO_INVENTORY` is passed in, so the App functions hold for any inventory.
- **HTML parsing:** a size-chart table arrives as the stripped text of each cell, header row first. `None` stands for a page without a table.
- Floating point: numbers are exact reals.
  - Numbers.Round1: rounds ties upwards, not with Python's ties-to-even rounding of binary floats.
  - Numbers.Round2: the same.
  - BodyEstimator.CalculateBmi: BMI is weight divided twice by the height in metres. On reals this equals division by the square.
- **Case mapping:**
  - Text.Lower: maps ASCII letters only, not the Unicode case rules of Python's `str.lower`.
  - Text.Upper: maps ASCII letters only, not the Unicode case rules of Python's `str.upper`.
- **The fabric pattern:**
  - IngestBeymen.FiberLetter: the class adds the upper-case forms that `re.IGNORECASE` gives the listed characters, capital sharp s 'ẞ' (U+1E9E) for 'ß' included. Under that flag Python's `[a-zA-Z]` also matches four non-ASCII letters: 'İ' (U+0130), 'ı' (U+0131), 'ſ' (U+017F) and the Kelvin sign (U+212A). The model's class leaves them out. `\s` is ASCII whitespace.
  - Text.IsDigit: only the ASCII digits `0`-`9`. Python's `\d`, in the fabric pattern and in the size-chart cell filter `[^\d.]`, also matches every other Unicode decimal digit, such as Arabic-Indic or full-width digits, and `float` accepts them. The model treats them as non-digits.
  - IngestBeymen.Percentage: `float(percentage)` of a digit run is its integer value.
- **Turkish literals:** text with Turkish letters (category names, fiber and header names, the fallback's messages) is kept exactly as the source spells it, garbled encoding included.
- **Preconditions where the source would fail:**
  - BodyEstimator.EstimateMeasurements requires a non-zero height: the source would divide by zero. `Recommend` reports that case as an error.
  - BodyEstimator.GetBodyAnalysis has the same requirement: the source would divide by zero.
- **Unused inputs:**
  - RecommendationEngine.GenerateFitDescription takes the fit preference but does not use it, as in the source.
  - The `dict(measurements)` conversion in `recommend` is left out because it changes nothing.
- **Function values instead of literal tables:**
  - RecommendationEngine.TallyMapping takes the per-measurement comparison as a function value. `ScoreSize` passes the real one.
  - IngestSizeChart.ReadBodyRows takes the header lookup and the number reader as function values. `ParseSizeChartTable` passes the real ones.
- **Not proved for the literal data:** the concrete examples of the fabric parser's docstring, and the concrete pairings of the demo inventory. Each is an instance of a general lemma above.
- **Aliasing:** `ValidateApiKey` returns the cached tenant record by value. In Python, later changes to that dict would be shared with the cache; the model does not capture this.
- Auth.AuthMiddleware.ValidateApiKey: models only the path without a database session, which is how `get_current_tenant` calls it.
- **The body estimate for 180 cm and 85 kg:** the estimator applies the BMI factor on top of the base ratio, so the chest comes out at about 106 cm, not the 93.6 cm that height times the base ratio alone would give.
