# The llmctl decision layer, verified

A Dafny 4.11 model of the algorithms behind `llmctl decide`, with the guarantees their comments claim
proved for every input, every run and every interleaving. Nothing here runs the original program.
`dafny verify dfyconfig.toml` checks the whole project.

| area | modules |
|---|---|
| calibration numerics | `Isotonic` (pool adjacent violators), `Calibrator` (interpolation, stored profiles), `Temperature` (golden section), `Stats` (ECE, MCE, Brier, Wilson) |
| worst-case readout, from the engine's top-n list to the confidence a client compares | `Readout`, `ReadoutLaws`, `Allocation`, `Answer`, `Worlds` (what a list leaves open), `LowerBound` and `LowTemperature` (when the conservative share is the least, from temperature 1 up and below it), `WorstCase` |
| order-preserving JSON tree and canonical text | `Json`, `JsonLaws`, `Canonical`, `FloatText`, `JsonIO` |
| truncation to a token budget | `Tokens`, `Truncation` |
| order-permuted asking | `Rotations`, `Permute`, `Probe` |
| the concurrent slot protocol | `Slots` |
| key lifecycle | `KeyStrength`, `Keyring`, `KeyCache`, `EnvText`, `EnvFile`, `EnvRuns` |
| validation verdict | `ValidationRun` |
| shared arithmetic and types | `Wrappers`, `Numeric`, `Sums`, `Decimal` |

How the source is rendered:

- Loops over slices and maps are methods with loops; objects whose fields change are classes (`KeyFile`,
  `KeyCache`, `Builder`, `Decoder`, `Run`). Each is tied to a specification function or predicate, and what the
  source promises is proved about that. The slot protocol is a state machine whose steps are the separate channel
  and counter operations, so its theorems quantify over every interleaving.
- Go floats are exact reals. `x^(1/T)` is a function `f` with the exponent `a`: growing, zero at zero, positive
  elsewhere, concave for `a <= 1` and convex for `a >= 1`; where exactness needs it, strictly so and the identity at
  `a = 1` (`LowerBound.PowerAtOne`, `PowerAtTwo` and `PowerAtHalf` give whole instances). `logit`, `sigmoid`,
  `softplus` and the square root are functions of which only monotonicity, convexity or the square is used, and for
  the likelihood that exp turns sums into products and minus softplus into sigmoid (`Temperature.Exponential`,
  `Temperature.Logistic`); the golden ratio is the exact root of `g*g + g == 1`.
- Maps keyed by a letter or an option are sequences in option order where the order is fixed by the request.
- The engine, the judge, the clock, the random key and the hidden part of a token distribution are parameters: the
  theorems hold for all of them.

## What the proofs found

- `LowerBound.WarmExact`, `LowTemperature.ColdListsExact`, `LowerBound.CutOffExact`: "the smallest share any feasible
  hidden allocation can leave" the winner leaves out two things. Hidden spellings of the other listed options are not
  in the denominator, which the package comment states as a limit (`LowerBound.HiddenSpellings` gives an input without
  any cut-off where the winner really has less), and hidden mass between 0 and 1e-9 counts as none
  (`LowerBound.CutOffMisses` gives an input). `WarmExact` gives the exact condition for temperatures of at least 1:
  nothing is left, or every other listed option has all its spellings listed, or what is left fits the absent options
  (and above temperature 1 their even level exceeds no other listed option that can hide more), with no cut. Below 1
  `ColdListsExact` gives it for every list whose rows have positive probabilities, without the exponent: nothing is
  left, or no other listed option can hide more, or the only one that can would make exactly a full letter while what
  is left fills whole letters. `LowTemperature.ColdExact`, `OneOtherExact`, `StayBelowHolds` and `UnfitExact` say what
  holds without that hypothesis, and `ColdCorners` decides every list by comparing finitely many choices.
- `KeyCache.BoundaryWithoutGrace`: "at or after t+g+5s" is strict only for a positive grace. Rotating without a
  grace at the very moment of a good read leaves the old key served at exactly t+5s if reads then fail; the lemma
  gives the exact condition.
- `Keyring.GenerationWidens`: generating a key for a file whose key line was deleted accepts a still-valid previous
  key that was not accepted before.
- `EnvFile.RewriteMerges`, `EnvFile.DuplicateOutlivesRotation`: the rewriter replaces the first assignment of a name
  and the parser keeps the last, so a file that assigns the key twice keeps its old key through every rotation. The
  first lemma gives the exact condition under which a rewrite has its effect.
- `Slots.OverflowsOnlyWhileFullExact`: "the next only while earlier ones are saturated" holds instance by instance,
  each seen full once during the acquire, not for all of them together (`Slots.OverflowIsNotSimultaneous` is the least
  failing run). In deterministic mode every grant of a later instance finds all earlier ones full at that moment, in
  every run, if and only if the requests fit the primary or there is only one instance.
- `Permute.CancelsIffWhole`: averaging cancels every position bias exactly over whole cycles of rotations.
- `Canonical.TextExact`: besides equal values, exactly two kinds of pairs share a text: null and the empty string,
  and a string that spells the sorted text of another value.

## Model

| member | source | states |
|---|---|---|
| `Isotonic.PoolTies` | internal/calibrate/fit.go:263-273 | one block holds exactly the labels of one confidence, with their count and sums |
| `Isotonic.PoolViolators` | internal/calibrate/fit.go:274-281 | merging backwards restores non-decreasing block means while the blocks still partition the data |
| `Isotonic.MergeKeeps` | internal/calibrate/fit.go:275-280 | pooling a violating top pair keeps the partition, conserves weight and sums, and keeps every prefix at or above its block mean |
| `Isotonic.FitIsotonicUnchecked` | internal/calibrate/fit.go:252-289 | fails exactly on one-class data; otherwise the knots are the means of blocks that partition the sorted data, rise, and are head-heavy |
| `Isotonic.FitKeepsSums` | internal/calibrate/fit.go:263-288 | the knots, weighted by the labels of their blocks, have the sums of the data: mean confidence and accuracy are kept |
| `Isotonic.BlockOptimal` | internal/calibrate/fit.go:252-289 | within one block no non-decreasing fit has a smaller squared error than the block mean |
| `Isotonic.LossOfSort` | internal/calibrate/fit.go:256-257 | sorting the labels changes neither the squared error of a fit nor its distance from another |
| `Isotonic.PavIsOptimal` | internal/calibrate/fit.go:252-289 | every non-decreasing function loses at least the fit's squared error plus its squared distance from the fit, so the fit is the unique optimum |
| `Calibrator.SearchFinds` | internal/calibrate/fit.go:227 | the binary search returns the boundary between knots below p and knots at or above it |
| `Calibrator.ApplyMonotone` | internal/calibrate/fit.go:216-233 | interpolation over valid knots is non-decreasing with values in [0,1] |
| `Calibrator.ApplyAtKnot` | internal/calibrate/fit.go:228-230 | at a knot the interpolation returns the knot's value |
| `Calibrator.ApplyOnChord` | internal/calibrate/fit.go:228-232 | between two neighbouring knots the value lies on the chord through them |
| `Calibrator.FittedKnotsValid` | internal/calibrate/fit.go:284-288 | for outcome labels in [0,1] a fit's centres strictly increase and its values are non-decreasing in [0,1] |
| `Calibrator.ParamFloats` | internal/calibrate/fromprofile.go:84-109 | a parameter list is read exactly when every entry is a finite number, and then unchanged |
| `Calibrator.CheckKnots` | internal/calibrate/fromprofile.go:42-65 | accepts exactly knots with increasing x and non-decreasing y, all in [0,1] |
| `Calibrator.FromProfile` | internal/calibrate/fromprofile.go:18-67 | accepts a profile exactly when it spells a valid calibration, and returns that one |
| `Calibrator.SpelledOnce` | internal/calibrate/fromprofile.go:18-67 | a profile spells at most one calibration |
| `Calibrator.FitIsAccepted` | internal/calibrate/fromprofile.go:42-65 | the stored form of every isotonic fit is accepted and rebuilds the same knots |
| `Temperature.FindNll` | internal/calibrate/fit.go:86-96 | the loop adds up the terms of the labels at a, the objective of `Temperature.ObjectiveIsLikelihood` |
| `Temperature.ObjectiveIsLikelihood` | internal/calibrate/fit.go:82-96 | exp of minus the objective at a is the product of the probabilities the scaled model gives the observed labels |
| `Temperature.ObjectiveFollowsLabels` | internal/calibrate/fit.go:86-96 | when every logit is on its label's side the objective never rises with a, when every one is on the wrong side it never falls |
| `Temperature.NllConvex` | internal/calibrate/fit.go:75-77 | the likelihood is convex in a for every convex softplus and every data set |
| `Temperature.GoldenSection` | internal/calibrate/fit.go:97-112 | after 200 rounds the interval has width exactly 99.99 g^200 and still holds the minimum over [0.01, 100]; cached values are those of the kept points |
| `Temperature.FitTemperature` | internal/calibrate/fit.go:78-115 | fails exactly on one-class data; the temperature is the inverse of the middle of an interval that holds the minimum of that objective |
| `Temperature.MostLikely` | internal/calibrate/fit.go:75-78 | that interval holds a scale under which the observed labels are at least as probable as under any other in [0.01, 100] |
| `Temperature.NearMinimiser` | internal/calibrate/fit.go:75-77 | if the likelihood has a minimiser, the result is within half the final width, below 1e-38, of one |
| `Temperature.TemperatureKeepsOrder` | internal/calibrate/fit.go:67 | a fitted temperature lies in [0.01, 100] and recalibration keeps the order of confidences |
| `Stats.Collect` | internal/calibrate/stats.go:89-104 | each bin holds the count and sums of exactly the pairs whose confidence falls into it |
| `Stats.MetricsOf` | internal/calibrate/stats.go:83-121 | the ECE is the weighted mean of the bins' gaps and the MCE their maximum, with one row per bin |
| `Stats.Metrics` | internal/calibrate/stats.go:74-80 | no number at all below 200 pairs |
| `Stats.BinsPartition` | internal/calibrate/stats.go:91-104 | counts, confidences and outcomes of the bins add up to those of all pairs |
| `Stats.ErrorsOrdered` | internal/calibrate/stats.go:105-116 | the distance of overall accuracy from mean confidence is at most the ECE, that at most the MCE, that at most 1 |
| `Stats.BrierRange` | internal/calibrate/stats.go:117-119 | the Brier score lies in [0,1] |
| `Stats.BrierIsLoss` | internal/calibrate/stats.go:100-119 | the summed Brier error is the squared error of the identity, the loss the isotonic fit minimises |
| `Stats.RowBetweenEdges` | internal/calibrate/stats.go:106-111 | a non-empty row's mean confidence lies between the edges it is reported with |
| `Stats.Wilson` | internal/calibrate/stats.go:40-50 | the clamped centre and half width for k of n, (0, 1) without trials |
| `Stats.WilsonExact` | internal/calibrate/stats.go:39-49 | before the clamps the interval is exactly the set of shares within z standard errors of k/n |
| `Stats.WilsonContains` | internal/calibrate/stats.go:39-49 | for every observed share in [0,1] and every positive z, before the clamps it contains the share and lies in [0,1] |
| `Allocation.OrderSorts` | internal/readout/readout.go:405-409 | the index order lists every cap once, ascending |
| `Allocation.SpreadEvenly` | internal/readout/readout.go:411-418 | the shares loop fills every cap up to one common level and uses min(total, sum of caps) |
| `Allocation.LargestFirst` | internal/readout/readout.go:419-424 | the other loop serves the largest cap first until the mass runs out, and uses as much |
| `Allocation.WorstAllocation` | internal/readout/readout.go:396-425 | feasible, uses exactly min(max(0, total), sum of caps), level-filled for a <= 1 and filled from the top for a > 1 |
| `Allocation.WaterFillingOptimal` | internal/readout/readout.go:396-401 | for every concave growing f no feasible allocation has a larger sum of f |
| `Allocation.LargestFirstOptimal` | internal/readout/readout.go:396-401 | the same for every convex growing f, filling the largest caps first |
| `Readout.ReadRows` | internal/readout/readout.go:260-302 | the list is refused with the first bad entry, otherwise merged to one row per token id with its probability |
| `Readout.SumMasses` | internal/readout/readout.go:303-321 | a letter is listed when some row spells it, and then holds the sum of its rows |
| `Readout.ListedAndFloor` | internal/readout/readout.go:322-332 | the listed mass and the smallest listed probability |
| `Readout.Distribution` | internal/readout/readout.go:438-478 | fails exactly without weight; otherwise each letter gets its share of the weights |
| `Readout.ComputeRawSpellings` | internal/readout/readout.go:237-395 | which refusal each list gets, in order; otherwise the reported probabilities, bounds and conservative distribution of its masses |
| `Readout.AllocationWorst` | internal/readout/readout.go:356-373 | the allocation behind the conservative distribution is at least as heavy as every other one within the bounds |
| `Readout.ConservativeBelowBound` | internal/readout/readout.go:374-393 | an absent letter's conservative share never exceeds its reported bound |
| `ReadoutLaws.SpellingsOf` | internal/readout/readout.go:185-194 | a token spells a letter exactly as the letter itself or after one space or one sentencepiece mark |
| `ReadoutLaws.RefusedAs` | internal/readout/readout.go:238-321 | exactly which lists are refused as bad arguments, as the engine's fault or as a failed readout, and exactly which are read |
| `ReadoutLaws.RowsAreBest` | internal/readout/readout.go:283-294 | the rows have distinct ids and cover the list, and each is the most probable entry of its id; entries without an id stay as they are |
| `ReadoutLaws.MassIsListed` | internal/readout/readout.go:303-314 | a letter's mass is what the rows that spell it hold together, and it has none without a row |
| `ReadoutLaws.SharesAre` | internal/readout/readout.go:347-373 | in both distributions listed options stand in the ratio of their powered masses; the conservative one takes from every listed option |
| `ReadoutLaws.BoundIsLargest` | internal/readout/readout.go:374-393 | an absent letter's normalised bound is attained by an allocation within the limits, and no other gives it more |
| `Answer.CheckProbs` | internal/contract/response.go:87-104 | accepts exactly n probabilities in [0, 1+1e-9] that sum to 1 within the tolerance, capped at 1 |
| `Answer.Round9Monotone` | internal/contract/response.go:80-85 | rounding keeps order |
| `Answer.Round9Close` | internal/contract/response.go:80-85 | rounding moves a value by at most 5e-10 |
| `Answer.Round9Again` | internal/contract/response.go:80-85 | rounding twice is rounding once |
| `Answer.Round9Nearest` | internal/contract/response.go:80-85 | the rounded value is the nearest multiple of 1e-9, at a tie the even one |
| `Answer.FindWinner` | internal/contract/response.go:137-148 | the first of the most probable options among those the readout listed |
| `Answer.ShapeIs` | internal/contract/response.go:106-109 | the shaped confidence is 0 up to chance, 1 at certainty, and linear between |
| `Answer.MomentIsTailMass` | internal/contract/response.go:160-163 | the score is the sum of the probabilities of at least 1, at least 2, and so on |
| `Answer.BuildAnswerBounded` | internal/contract/response.go:121-193 | builds the typed answer exactly for acceptable probabilities and bounds: rounded shares, the winner, its shaped confidence and the flags |
| `Answer.Apply` | internal/gateway/calibration.go:187-224 | a calibrated confidence replaces the raw one, clamped, and for a flagged answer is capped by the best listed share |
| `Answer.FindBestListed` | internal/gateway/calibration.go:195-210 | the largest probability of a listed option, if any |
| `Answer.AnswerConfidence` | internal/client/output.go:88-138 | the confidence a client compares, by kind, flags, bounds and calibration; what it means for each of them is stated by the next four rows |
| `Answer.NoulIsSymmetric` | internal/client/output.go:91-103 | an unflagged noul is compared by its distance from one half, doubled, whichever side it is on |
| `Answer.ConfidenceIs` | internal/client/output.go:88-138 | for every kind, flagged or not, a fresh answer is compared by the winner's share, shaped, within 1.5e-9 |
| `Answer.NothingListed` | internal/client/output.go:99-103 | an answer of which no option was listed is compared as 0 |
| `Answer.CalibratedIs` | internal/gateway/calibration.go:187-224 | a calibrated answer is compared by the calibrator's value at the winner's rounded share, clamped, and when flagged at most that share |
| `Answer.MinConfidence` | internal/client/output.go:155-168 | the smallest confidence over the answers, 1 without any |
| `Answer.BestIsWinner` | internal/client/output.go:122-136 | the client's best listed probability is the rounded probability of the gateway's winner |
| `Worlds.RoomForIs` | internal/readout/readout.go:17-20 | an absent option can be hidden in every spelling, a listed one in those no row spells |
| `Worlds.WorldIsFeasible` | internal/readout/readout.go:333-346 | in every hidden distribution consistent with the list the absent options stay within the derived bound and the unlisted total |
| `Worlds.WorldOf` | internal/readout/readout.go:15-20 | every choice of amounts within those limits is hidden by some consistent distribution |
| `Worlds.ConservativeIsWorst` | internal/readout/readout.go:356-373 | no consistent world that hides no other listed option gives a listed option less than its conservative share; all mass in the world counts |
| `LowerBound.CutOffExact` | internal/readout/readout.go:333-338 | over those worlds and all the list leaves open, the share is a lower bound exactly when the 1e-9 cut does not apply or has nothing to miss |
| `LowerBound.HiddenSpellings` | internal/readout/readout.go:25-27 | an input without a cut where hidden spellings of a listed option leave the winner less than its conservative share |
| `LowerBound.CutOffMisses` | internal/readout/readout.go:333-336 | a list with half of the 1e-9 cut left, where a world hides it in the absent option and leaves the listed one less |
| `LowerBound.WarmExact` | internal/readout/readout.go:20-27 | at temperature 1 and above, over every consistent world, the share is a lower bound exactly under a comparison of the left mass with the absent options |
| `LowerBound.CoveredHolds` | internal/readout/readout.go:20-27 | at every temperature that comparison is enough |
| `LowTemperature.UnfitExact` | internal/readout/readout.go:20-27 | at every temperature: where what is left exceeds what the absent options can hide, or is cut off, the share is a lower bound exactly when nothing is left, the option weighs nothing, or no other listed option can hide more |
| `LowTemperature.ColdExact` | internal/readout/readout.go:20-27 | below temperature 1, next to another listed option that with its hidden spellings can outgrow the bound, the share is a lower bound exactly when nothing is left or the option weighs nothing |
| `LowTemperature.StayBelowHolds` | internal/readout/readout.go:20-27 | below temperature 1, while every other listed option stays at or below the last absent option's amount with all they could hide, the share is a lower bound |
| `LowTemperature.OneOtherExact` | internal/readout/readout.go:20-27 | below temperature 1 with one other listed option that can hide more: the share is a lower bound exactly when that option's whole possible mass does not exceed the last absent option's amount |
| `LowTemperature.ListsAreAmple` | internal/readout/readout.go:15-19 | on a list of rows with positive probabilities every listed option that can hide more can reach the most an absent one can hide |
| `LowTemperature.ColdListsExact` | internal/readout/readout.go:20-27 | below temperature 1, on every such list and without the exponent: exactly when the share is a lower bound over every consistent world |
| `LowTemperature.CornersAreListed` | internal/readout/readout.go:20-27 | the extreme hidden choices, options full or empty and one with the rest, are among finitely many that can be written down |
| `LowTemperature.ColdCorners` | internal/readout/readout.go:20-27 | at temperature 1 and below, on every list: the share is a lower bound exactly when none of those choices weighs more than the listed masses and the largest-first filling |
| `LowerBound.PowerAtOne` | internal/readout/readout.go:397-401 | the identity is the power at temperature 1, in every respect used |
| `LowerBound.PowerAtTwo` | internal/readout/readout.go:397-401 | the square is the power at temperature 1/2, in every respect used |
| `LowerBound.PowerAtHalf` | internal/readout/readout.go:397-401 | every square root is the power at temperature 2, in every respect used |
| `WorstCase.ReadoutIsAccepted` | internal/gateway/letter.go:111-141 | whatever the readout reports, the answer builder accepts it |
| `WorstCase.NeverMoreThanTheWorld` | internal/gateway/letter.go:119-141 | end to end: in every consistent world that hides no other listed option, and in every one at all where the exact condition or the corner check holds, with or without a calibrator, a flagged answer's compared confidence is at most what the winner's whole share in that world gives, up to the nine-decimal rounding |
| `Json.RawRoundTrip` | internal/contract/jsonparse.go:186-237 | parsing the printed text returns the tree exactly when its keys are distinct, its literals valid and finite, and its nesting within the limit |
| `Json.ParsedSurvives` | internal/contract/jsonparse.go:48-130 | printing and re-parsing an accepted body changes nothing |
| `JsonLaws.RawIsTokens` | internal/contract/jsonparse.go:195-235 | the compact text is the texts of the tokens in a row |
| `JsonLaws.ReadTakesTokens` | internal/contract/jsonparse.go:64-130 | what the grammar reads is exactly the tokens it takes from the front |
| `JsonLaws.NumberGrammar` | internal/contract/jsonparse.go:64-88 | a literal is accepted exactly when it is sign, integer, fraction and exponent as in section 6 of RFC 8259 |
| `JsonLaws.UnicodeIsRead` | internal/contract/jsonparse.go:64-88 | every character written in hexadecimal escapes, by a surrogate pair where it needs one and in either case, is read back |
| `JsonLaws.LoneSurrogate` | internal/contract/jsonparse.go:64-88 | an escaped surrogate without its other half is read as the replacement character |
| `JsonLaws.PlainIsPlain` | internal/contract/jsonparse.go:237-267 | only quotes, backslashes and control characters are escaped |
| `Canonical.PyNumberValid` | internal/contract/jsonparse.go:271-325 | the normal form of a number literal is again a number literal, in every layout |
| `Canonical.KeysByCharacter` | internal/contract/jsonparse.go:220-223 | keys are ordered by their first different character, a prefix first |
| `Canonical.SortedTextExact` | internal/contract/jsonparse.go:173-237 | two readable trees have the same sorted text exactly when they are equal up to member order at every level and number normalisation |
| `Canonical.TextExact` | internal/contract/jsonparse.go:173-184 | two values share a text exactly when they are the same up to member order and number normalisation, or are null and the empty string, or one is a string that spells the other |
| `FloatText.ReprUnique` | internal/contract/jsonparse.go:282-325 | in every layout the printed form of a double determines its sign, digits and exponent |
| `FloatText.PrintsTheNumber` | internal/contract/jsonparse.go:282-325 | the printed digits and exponent write the number out, with an exponent exactly outside 1e-4 to 1e16 |
| `FloatText.NumberFormExact` | internal/contract/jsonparse.go:269-280 | two literals have the same form exactly when they are the same integer (with -0 as 0) or stand for the same double |
| `FloatText.SortedTextDecides` | internal/contract/jsonparse.go:195-280 | with that form the sorted text decides equality up to member order, numbers compared by what they stand for |
| `JsonIO.WriteQuoted` | internal/contract/jsonparse.go:237-267 | appends the escaped form of the string |
| `JsonIO.Write` | internal/contract/jsonparse.go:195-235 | the recursive writer appends the text of the tree in request order, or of its canonical tree when sorted |
| `JsonIO.ReadArray` | internal/contract/jsonparse.go:89-102 | consumes exactly the tokens of the array, or fails when the grammar does |
| `JsonIO.ReadObject` | internal/contract/jsonparse.go:103-128 | the same for an object, failing on a repeated key |
| `JsonIO.Parse` | internal/contract/jsonparse.go:48-62 | the streaming parser accepts exactly the bodies of the grammar within the nesting limit, with the same tree |
| `Tokens.EstimateTextTokens` | internal/contract/tokens.go:97-129 | the streaming pass computes the cost by maximal letter/digit runs |
| `Tokens.Superadditive` | internal/contract/tokens.go:97-129 | joining texts never lowers the cost, and only adds when no run crosses the border |
| `Tokens.StretchCostsLess` | internal/contract/tokens.go:97-129 | the estimate of a text is at least that of every stretch of it |
| `Tokens.LoneRun` | internal/contract/tokens.go:97-129 | a text of letters costs 0.4 token a letter up to twelve and 0.8 beyond, one of digits a token a digit |
| `Tokens.EstimateRoundsUp` | internal/contract/tokens.go:128 | the estimate is the cost in hundredths, rounded up |
| `Truncation.ClusterBoundary` | internal/contract/request.go:270-286 | the backward count decides the boundary before position i |
| `Truncation.FlagsStayPaired` | internal/contract/request.go:278-284 | inside a run of regional indicators a cut may only fall between whole flags |
| `Truncation.Shorten` | internal/contract/request.go:252-268 | the two loops give r[..h], the marker and r[t..], h the last boundary within the larger half of keep and t the first one that leaves at most the smaller half |
| `Truncation.ShortenedIs` | internal/contract/request.go:257-268 | the same of the function every fitting test uses |
| `Truncation.CutOnce` | internal/contract/request.go:257-268 | there is one such pair of cuts |
| `Truncation.PiecesWhole` | internal/contract/request.go:254-256 | no cut falls before an extender or after a joiner |
| `Truncation.LettersKept` | internal/contract/request.go:252-268 | of plain letters the first keep - keep/2 and the last keep/2 remain around the marker |
| `Truncation.ShortenedGrows` | internal/contract/request.go:252-268 | at most keep runes plus the marker, and both pieces only grow with keep |
| `Truncation.EstimateGrows` | internal/contract/request.go:257-268 | so the plain estimate of what is kept grows with keep, between any fixed texts |
| `Truncation.FindWorstPrompt` | internal/contract/tokens.go:160-168 | the largest prompt estimate over the questions |
| `Truncation.FitsEveryPrompt` | internal/contract/request.go:218-223 | a state fits the token budget exactly when every question's prompt does |
| `Truncation.PairPromptIs` | internal/contract/tokens.go:132-146 | a pair prompt fits exactly when the state fits with every hypothesis |
| `Truncation.SearchKeep` | internal/contract/request.go:236-245 | the binary search ends at a part that fits while one rune more does not |
| `Truncation.Truncate` | internal/contract/request.go:203-249 | every refusal and acceptance, and how much of the state is kept |
| `Truncation.TruncatedFits` | internal/contract/request.go:224-249 | a shortened state fits the token budget; state and longest question stay within the character budget when that was exceeded, and otherwise exceed it by less than the marker |
| `Truncation.PlainFitsBelow` | internal/contract/request.go:217-222 | when prompts embed the state unchanged, a part of a fitting part fits |
| `Truncation.LargestKept` | internal/contract/request.go:235 | then the search keeps the largest part that fits |
| `Truncation.MostKeptIs` | internal/contract/request.go:228-231 | the first keep is the most the character budget allows with the marker, or one rune less than the state |
| `Truncation.KeepsTheMost` | internal/contract/request.go:224-249 | for plain states a part fits every budget exactly when it is no longer than the kept one |
| `Rotations.ListedAt` | internal/client/permute.go:95-97 | call i lists option j at position (j-i) mod n |
| `Rotations.EveryPairEqually` | internal/client/permute.go:105-108 | over m whole cycles every option is listed at every position exactly m times |
| `Permute.UsedIsWhole` | internal/client/permute.go:237-244 | the averaged calls are the most whole cycles there are, or all of them when there is none |
| `Permute.AverageRuns` | internal/client/permute.go:248-270 | refuses exactly when some call's options are wrong; otherwise the mean probability per option |
| `Permute.PickBest` | internal/client/permute.go:287-300 | the first best average among the options some call measured |
| `Permute.CountFlips` | internal/client/permute.go:301-312 | counts the calls that clearly preferred another option |
| `Permute.MergeQuestion` | internal/client/permute.go:222-316 | the merged answer of one question: averages, winner, flips and confidence over the used calls |
| `Permute.AverageIsDistribution` | internal/client/permute.go:248-270 | averages of distributions are a distribution |
| `Permute.BiasCancels` | internal/client/permute.go:237-244 | over whole cycles an additive position bias adds its mean to every option |
| `Permute.ContentOrderKept` | internal/client/permute.go:237-244 | so two averages are ordered as their content |
| `Permute.WinnerHasBestContent` | internal/client/permute.go:287-300 | and the winner has the best content |
| `Permute.CancelsIffWhole` | internal/client/permute.go:237-244 | every bias cancels over k calls if and only if k is a multiple of the option count |
| `Permute.CallerRotationIrrelevant` | internal/client/permute.go:105-112 | over whole cycles no measure of the answers depends on which rotation the caller listed |
| `Permute.AveragesIgnoreCallerRotation` | internal/client/permute.go:105-112 | in particular the averages do not |
| `Probe.FindOwn` | internal/client/probe.go:239-247 | a call's own answer: its choice, or the first most probable option |
| `Probe.CountPositions` | internal/client/probe.go:225-250 | how often the calls' own answers sat at each listing position |
| `Probe.ProbeQuestion` | internal/client/probe.go:182-258 | the record of one question: orders used, winner, flips, position counts and largest deviation |
| `Probe.CountsSum` | internal/client/probe.go:225-250 | the position counts sum to the used calls |
| `Probe.ContentEngine` | internal/client/probe.go:248-258 | an engine that answers by content shows deviation 0 over whole cycles |
| `Probe.PositionEngine` | internal/client/probe.go:248-258 | an engine that answers by position shows deviation 1 - 1/n |
| `Probe.PositionFlips` | internal/client/probe.go:230-238 | and disagrees with each option in all but one of every cycle's calls |
| `Probe.DeviationRange` | internal/client/probe.go:248-258 | the deviation is 0 exactly for equal counts and 1 - 1/n exactly for a single position |
| `Probe.ContentNeverFlips` | internal/client/probe.go:230-238 | an engine that ignores the order never flips |
| `Slots.StepKeeps` | internal/gateway/router.go:199-280 | every step keeps each channel equal to the requests holding a token and each counter equal to those deciding |
| `Slots.Bounded` | internal/gateway/router.go:199-236 | over every interleaving 0 <= in flight <= tokens held <= concurrency |
| `Slots.QuietMeansZero` | internal/gateway/router.go:222-227 | with no request between send and receive every counter is zero |
| `Slots.TokenReturnedOnce` | internal/gateway/router.go:210-227 | each request sends at most one token and takes back exactly the one it sent |
| `Slots.ReleaseNeverBlocks` | internal/gateway/router.go:222-227 | the receive of a release always finds a token |
| `Slots.PassedWereFull` | internal/gateway/router.go:238-266 | an instance is passed over only after this acquire found it full |
| `Slots.OverflowInOrder` | internal/gateway/router.go:235-280 | deterministic mode: a later instance serves only after each earlier one was seen full, in resolver order |
| `Slots.OverloadedFoundAllFull` | internal/gateway/router.go:264-280 | in both modes a request is refused as overloaded only after it found every instance full |
| `Slots.LeastFirstCovers` | internal/gateway/router.go:241-255 | the throughput order is the instances, starting with a least loaded one |
| `Slots.LoadsWereRead` | internal/gateway/router.go:241-247 | the loads a throughput acquire compares are counters it read one by one, in instance order, earlier in the run |
| `Slots.OverflowIsNotSimultaneous` | internal/gateway/router.go:235-237 | a reachable run in which the overflow instance serves while the primary is free again |
| `Slots.OverflowsOnlyWhileFullExact` | internal/gateway/router.go:235-280 | deterministic mode, n requests over the same instances: every grant of a later instance, in every run, finds all earlier ones full at that moment if and only if n is at most the concurrency or there is one instance |
| `Slots.NoDeadlock` | internal/gateway/router.go:238-280 | while a request is unfinished some request can step without a cancellation |
| `Slots.RunsEnd` | internal/gateway/router.go:267-280 | deterministic runs are at most number-of-instances plus six steps per request |
| `Slots.EveryoneIsServed` | internal/gateway/router.go:294-321 | without cancellations every deterministic run that cannot go on has decided every request |
| `KeyStrength.Index` | internal/keyring/keyring.go:257 | the first occurrence of a text, or none |
| `KeyStrength.CommonShift` | internal/keyring/keyring.go:257 | two rotations that fix a word have a common divisor rotation that fixes it |
| `KeyStrength.RotationIffBlocks` | internal/keyring/keyring.go:257 | a word is fixed by a proper rotation if and only if it is two or more copies of a shorter block |
| `KeyStrength.SearchIffBlocks` | internal/keyring/keyring.go:257-259 | the search in k+k finds the word early if and only if it is a repeated block |
| `KeyStrength.WeakKey` | internal/keyring/keyring.go:228-272 | the first entropy rule a key breaks, with repetition meaning repeated blocks |
| `Keyring.KeyFile.ValidateKey` | internal/keyring/keyring.go:199-211 | accepts exactly well-formed keys that break no entropy rule |
| `Keyring.KeyFile.Resolve` | internal/keyring/keyring.go:310-358 | environment before file before generation; the file changes only by a generated key |
| `Keyring.KeyFile.AcceptedKeys` | internal/keyring/keyring.go:411-445 | the accepted keys of the file and environment at a time, reading only |
| `Keyring.KeyFile.Rotate` | internal/keyring/keyring.go:461-514 | the rotated file, or a refusal that leaves it alone |
| `Keyring.ExpiryRoundTrip` | internal/keyring/keyring.go:432-459 | a written expiry is read back exactly when it is a non-negative 64-bit number |
| `Keyring.AcceptedAfterRotation` | internal/keyring/keyring.go:411-514 | exactly which keys are accepted after a rotation, at every later time |
| `Keyring.RotationNeverWidens` | internal/keyring/keyring.go:488-507 | a rotation adds only the new key to what is accepted, whatever the environment holds |
| `Keyring.RunNeverWidens` | internal/keyring/keyring.go:461-514 | over every run only new keys and initially accepted ones are accepted |
| `Keyring.AtMostTwo` | internal/keyring/keyring.go:411-445 | never more than two keys, and never another one beside an environment key |
| `Keyring.SecondRotationDrops` | internal/keyring/keyring.go:461-514 | a previous key does not outlive the next rotation, for every environment |
| `Keyring.KeptWasAccepted` | internal/keyring/keyring.go:488-507 | a rotation leaves a previous key exactly when it has a grace and the file's key was accepted, and then that key |
| `Keyring.GenerationWidens` | internal/keyring/keyring.go:341-357 | generation widens the set exactly when a usable unexpired previous key is left in the file |
| `KeyCache.KeyCache.Get` | cmd/llmctl-decide/serve_hardening.go:46-84 | the refreshed cache, the served set and the reports of one call |
| `KeyCache.ReadOnceASecond` | cmd/llmctl-decide/serve_hardening.go:49-54 | the source is read again exactly once a second has passed since the last read |
| `KeyCache.ReportsChanges` | cmd/llmctl-decide/serve_hardening.go:54-76 | a read is reported exactly when it went differently from the one before it, a problem by its text and its end once |
| `KeyCache.RevokedWithinGrace` | cmd/llmctl-decide/serve_hardening.go:46-84 | whatever reads succeed or fail and whatever is rotated next, the replaced key is not served after t+g+5s |
| `KeyCache.BoundaryWithoutGrace` | cmd/llmctl-decide/serve_hardening.go:79-84 | the exact condition for the replaced key to be served at t+5s after a rotation without a grace |
| `KeyCache.BoundaryReached` | cmd/llmctl-decide/serve_hardening.go:79-84 | a run that reaches it: the replaced key is served at t+5s |
| `KeyCache.RevokedWithinASecond` | cmd/llmctl-decide/serve_hardening.go:50-58 | while reads succeed the replaced key is gone at t+g+1s, for every environment |
| `KeyCache.ServedIsNewest` | cmd/llmctl-decide/serve_hardening.go:46-84 | every served set is that of the newest good read, at most five seconds old |
| `EnvText.SplitJoin` | internal/keyring/env.go:225-246 | splitting undoes joining |
| `EnvText.ParseEnvText` | internal/keyring/env.go:54-86 | the values of the assignments, the last one winning, or the first bad line |
| `EnvText.TrimIs` | internal/keyring/env.go:61-76 | trimming takes away exactly the blanks at both ends |
| `EnvText.SkippedLines` | internal/keyring/env.go:61-64 | a line is skipped exactly when it is blank or its first other character starts a comment |
| `EnvText.UnquoteIs` | internal/keyring/env.go:80-82 | one pair of equal quotes is taken off, and nothing else |
| `EnvText.ExportIgnored` | internal/keyring/env.go:65-67 | an export prefix changes nothing |
| `EnvText.WrittenLine` | internal/keyring/env.go:231-245 | a written assignment is read back as its trimmed and unquoted value |
| `EnvFile.RewriteLines` | internal/keyring/env.go:206-247 | the loop writes the rewritten text, missing names in byte order at the end |
| `EnvFile.ValidateUpdates` | internal/keyring/env.go:250-260 | accepts exactly valid names with one-line values that substitute nothing |
| `EnvFile.NameAgrees` | internal/keyring/env.go:217-224 | the rewriter sees the name the parser assigns |
| `EnvFile.RewriteExact` | internal/keyring/env.go:206-247 | exactly what every rewritten file parses to |
| `EnvFile.RewriteMerges` | internal/keyring/env.go:206-247 | that is the old values minus removals plus updates if and only if no kept updated name was assigned twice with another value |
| `EnvFile.RotationInText` | internal/keyring/keyring.go:487-508 | rotating the text gives the rotated file, when the updated names are assigned at most once |
| `EnvFile.DuplicateOutlivesRotation` | internal/keyring/env.go:232-236 | a key assigned twice keeps its old value through every rotation |
| `EnvFile.DuplicateExists` | internal/keyring/env.go:59-84 | such files parse |
| `EnvRuns.RewriteKeepsSingle` | internal/keyring/env.go:206-247 | a rewrite assigns no name twice that was not assigned twice before |
| `EnvRuns.RotationStep` | internal/keyring/keyring.go:461-514 | rotating the text of a file without duplicates gives the text of the rotated file, again without duplicates; a refused rotation changes nothing |
| `EnvRuns.TextNeverWidens` | internal/keyring/keyring.go:461-514 | over every run of rotations on such a text only new keys and initially accepted ones are accepted |
| `ValidationRun.Run.AskFirst` | lib/validate_judge.py:1691-1722 | one first question is counted as a pass exactly when its answer is complete and judged right |
| `ValidationRun.Run.AskControl` | lib/validate_judge.py:1728-1760 | one control is counted as a pass exactly when it is answered and judged wrong |
| `ValidationRun.Run.AskAgain` | lib/validate_judge.py:1770-1798 | the repetitions asked and logged are exactly those up to the first missing, incomplete or different answer, and are counted as one pass, failure or undetermined |
| `ValidationRun.RepetitionsStop` | lib/validate_judge.py:1774-1785 | all repetitions are asked, or asking stops right after the first bad reply |
| `ValidationRun.Run.AskPlan` | lib/validate_judge.py:1764-1798 | the log grows by the repetitions of every planned probe in turn, whatever went wrong before |
| `ValidationRun.PlanGoesOn` | lib/validate_judge.py:1771-1790 | every planned probe is asked again at least once |
| `ValidationRun.Run.Go` | lib/validate_judge.py:1556-1799 | PASS exactly when every earlier check held, something was asked, and the replies were good ones to exactly the requests of a clean run; FAIL exactly when the self-test failed or, after a ready precheck, some logged reply speaks against the model; otherwise UNDETERMINED |
| `ValidationRun.FailMeans` | lib/validate_judge.py:1691-1798 | a reply speaks against the model only when refused or judged so: never a missing one, nor one cut off while still reasoning |
| `ValidationRun.PassMeans` | lib/validate_judge.py:1691-1799 | a PASS at repeat n: each first answer complete and right, n-1 identical repetitions, each control judged wrong |
| `ValidationRun.MinRepeat` | lib/validate_judge.py:2091 | the smallest repeat of the reports, 0 without any |
| `ValidationRun.Record` | lib/validate_judge.py:2067-2150 | which of writing, keeping and each refusal happens, each by an equivalence: a pass is written exactly for decision-bearing runs of the confirmed model, and an undetermined run never replaces a verdict |
| `ValidationRun.AnsweredAlike` | lib/validate_judge.py:1762-1798 | in a passed run each probe has at least repeat answers, all complete, right and the same |
| `ValidationRun.WrittenPassMeans` | lib/validate_judge.py:2091-2119 | a pass written for passed runs means every probe of every run was answered alike at least three times |

## Left out

- Float round-off and overflow, NaN and infinities: arithmetic is exact, so the one-hot fallback of an overflowing normalisation and the subtraction of the largest logit are not modelled.
- Shortest-digit generation and the conversion of a literal to its double: digits and finiteness are parameters of the JSON modules; that the printed double equals the parsed one is not stated.
- Platt scaling and cross-fitting: Platt scaling is not claimed to be monotone, and the folds would only add easy members.
- Accuracy rows, baselines and record classification in `internal/calibrate/stats.go`.
- Parsing of the engine's log-probability JSON: the readout starts from entries whose fields are already typed.
- LowTemperature.ColdListsExact: a list with a row of probability 0 is not covered; there the condition is that of `LowTemperature.OneOtherExact` for one other option that can hide more, and for several the comparison of `LowTemperature.ColdCorners`, which uses the exponent.
- An engine that exposes more spellings of a letter than the configured number is not covered, as the source says.
- Go's JSON tokenizer is modelled by the grammar of RFC 8259, sections 2 to 7, on characters; replacement of invalid UTF-8 is not.
- Prompt rendering, neutralisation and Unicode normalisation: a prompt is a function of the state; the hypotheses of a pair profile are given as one-line texts.
- Request validation, profiles, limits and the response text: only the truncation part of request parsing is modelled.
- Permuted and probed calls start from parsed answers of one question with distinct non-empty option keys; merging of flags, upper bounds, calibration objects, usage and latency is left out.
- The engine call, health checks and the metrics of the router; a waiting throughput request polls, and its timer is a step.
- Endpoint slots are never removed, as in the source; a request is one thread that acquires once.
- File locking, permissions, atomic replacement and placement checks of the env file; the key file is its parsed values, tied to its text by `EnvFile.RotationInText`.
- Expiry arithmetic is unbounded; an expiry beyond 64 bits is written and then not accepted, as in the source's parser.
- Key comparison, digests and randomness: keys are compared by value and new keys are arbitrary.
- Embedding and decide suites, the judge's own heuristics, suite schema and integrity checks: they are the judge parameter and the precheck of a run.
- `check_state` and the signature of a validation record.
- HTTP, TLS, processes, the CLI, certificates and report rendering.
