# PromClick in Dafny

PromClick compiles a PromQL expression into a flat query plan, fetches a bounded window of
samples from ClickHouse and evaluates the plan in Go. Much of its code is a fast or flat
form of something simple. This project models that code in Dafny and proves what each fast
form owes to its simple one, and, where it owes more than it delivers, exactly when it
delivers.

## What is modelled

**Evaluation of a plan.** `Staleness` and `RangeFunctions` give the value of one series at
one time; `RangeValues` and `RangeMeanings` say what each range function reports, by the
samples in its range alone. `LabelKeys`, `Aggregation` and `VectorAggregation` aggregate an
instant vector; `InstantEval` and `StepFirst` are the simple evaluator, one instant
evaluation per step; `MatrixColumns`, `MatrixAggregation` and `RangeQuery` are the fast one,
series first, with cursors and keys computed once. Vectors and matrices are compared as maps
from label sets; `Columns` proves that a matrix is determined by its columns, so that the
comparison loses nothing but order. `BinaryVectors`, `BinaryJoin` and `BinaryEval` are the
binary operators; `Operators` says what the comparisons keep and which laws the arithmetic
obeys.

**From expression to result.** `Translator` builds plans on a mutable tree, patching the
plan of the inner expression in place as the transpilers do, and is proved against a pure
translation. `FetchWindow` proves that the fetched window is wide enough. `PlanEval` is the
recursive evaluator of whole plans. `Selectors` says which stored series a selector means
and when the translator asks for them; `Meaning` gives every expression a meaning by applying
its own operator at each node to the whole history, with its own reading of the arguments
(`Calls`), and `CallMeanings` says what that meaning is, function by function. `Preservation`
connects the two for expressions in normal form, and `Constants` for expressions of numbers.

**Where the flat plan is not enough.** `Hoisting` says what the plan of any nesting of math
and aggregations computes. `Pointwise`, `PointwiseLimits` and `MathLimits` prove for which
pairs of an aggregation and a pointwise function that is right, `Parameters` and
`ParameterLimits` the same for range functions with a parameter; `HoistingLimits` holds what
they share. `FrozenOperands` and `FrozenWitnesses` do so for operands that look like
scalars, `Trigonometry` and `TrigonometryLimits` for the functions that range queries drop.

**Numeric kernels over the reals.** `Extrapolate`, `Regression`, `Variance`, `Quantile`,
`Smoothing`, `Histogram` and `HistogramQuantile`, the last with its in-place array loops.
`ExtrapolateExact` fixes what the extrapolation adds, `HistogramInverse` where the quantile
lies in its bucket.

**Downsampled data.** `CounterBuckets` (per-bucket counter totals), `Segments` (tiers and
segments), `SlidingWindow`, `WindowScans` and `GaugeBuckets` (evaluation of buckets).

**The result cache.** `Lru` is the list as a function of its operations and holds the
theorems over all runs; `Cache` is the class with list and map, proved against it;
`Singleflight` is the concurrent protocol as a step machine, in any interleaving.

**The remote-write batcher.** `Writer` has one method per event of its loop; `Flush` builds
the rows of one flush.

## Assumptions

- Values are reals. A stale marker is a flag on a sample. A result that the program reports
  as NaN or infinite is a separate constructor where the code tests for it.
- Timestamps of a series strictly increase; label values are not empty, and label names and
  values do not contain the bytes 0 and 1 that the keys use as terminators (`KeyCollision`
  shows that this is needed).
- Distinct series have distinct label maps, and the fingerprint of a label map stands for
  it; the batcher alone works with an arbitrary fingerprint function.
- The iteration order of a Go map is arbitrary; an unstable sort is any ascending
  permutation.
- Clocks, what a computation returns, and the functions of the math library that are not
  modelled (`Lib`) are parameters: results hold for all of them. Only the limits assume more:
  that `exp`, the logarithms and `sqrt` are strictly increasing, with 0 and 1 as roots of
  themselves (`RegularLib`), and simple facts about the trigonometric functions, such as
  which of them keep the sign (`TrigLib`).
- What a regular expression matches is a parameter, and what the database finds for it is
  another one: equality and inequality mean what they say to both.
- The labels of a series do not hold its metric name, nor do those of a result.
- Steps of a range query strictly increase, which a step of at least a millisecond
  guarantees.

## What is not as one might expect

Each of these is a theorem below, with the exact condition under which the code is right
unless another is named.

- Trigonometric functions, `deg` and `rad` are silently dropped from range queries
  (`MathOpsAgree`). In a chain that may not matter: `sgn(deg(x))` is evaluated alike
  (`SignOfDegrees`), and so is whatever a clamp maps to one number. The condition on chains
  (`Harmless`) is computed; it is sufficient (`SafeChainsAgree`), and exact before sorting,
  clamping, absolute value and sign (`TrigThenTail`). Functions that are not defined
  everywhere, such as `asin`, never count as harmless.
- Math inside an aggregation is applied after it (`PlanMeansCanonical`): `sum(exp(x))` is
  evaluated as `exp(sum(x))`. `MathUnderAggregation` says for which of them that is right;
  `max(exp(x))` is, `max(abs(x))` is not. Roots and logarithms are numbers everywhere here:
  `min(sqrt(x))` and `min(ln(x))` are right as long as all values are in the domain.
- The parameter of a range function under an aggregation is lost: `predict_linear` predicts
  the present (`PredictionUnderAggregation`), `quantile_over_time` becomes the minimum
  (`QuantileUnderAggregation`), `double_exponential_smoothing` falls silent
  (`SmoothingUnderAggregation`).
- A range query freezes an operand such as `sum(x)` at its first sample
  (`FrozenRightExactly`, `FrozenLeftExactly`, `SumOfSumsIsWrong`), makes nothing of a set
  operator on it (`FrozenSetOperator`, `FrozenLeftSetOperator`), and forgets math around
  such an operator or around a negation (`ForgottenMath`, `AbsoluteOfMinusOne`).
- An instant selector can lose a sample exactly at the start of the fetch, which the fetch
  excludes and the lookup includes (`InstantValueFromFetched`).
- A selector with a regular expression on its metric name is compiled as if the pattern were
  the name (`NameOfPlan`). What patterns accept is left open, so `{__name__=~"foo"}` counts
  as wrong although a pattern without metacharacters happens to be compiled correctly.
- A regular expression on a label reaches the database without anchors, where the endpoint
  for label values puts them (translator/plan.go:175, proxy/server/handlers/meta.go:190): a
  selector is right for certain only without one (`SelectorCompiled`).
- A comparison with a number on its left keeps that number instead of the element
  (`NumberCompared`): `2 < x` reports twos.
- An expression of numbers is evaluated to one sample at the start of the query, not to one
  per step (`NumbersAreFolded`).
- The negation of an operand such as `sum(x)` becomes one sample (`FrozenNegation`).
- Segments leave a gap where a tier coarser than the selected one owns the data
  (`UncoveredInstants`, `TilesExactlyWhen`).
- The comment at the windowed evaluation promises time linear in steps and buckets. The left
  pointer keeps to that, but every step scans its window again: `LinearExactlyWhenSpaced`
  and `ScansAreNotLinear`.
- The proxy's quantile does not report the infinities of the evaluator outside [0, 1]
  (`QuantilesAgree`), and at quantile zero the histogram code can divide zero by zero
  (`QuantileAtZero`).

## Model

| member | source | states |
|---|---|---|
| Staleness.FirstAfterSplits | eval/staleness.go:20-61 | On increasing timestamps the binary search returns the index that splits the series at the time looked up. |
| Staleness.InstantValueMeaning | eval/staleness.go:20-49 | A lookup returns the value of the latest sample at or before the time, unless that sample is older than the staleness window or a stale marker; otherwise nothing. |
| Staleness.WindowIsBetween | eval/staleness.go:50-61 | A range window is exactly the samples with start < ts <= end. |
| RangeFunctions.RangeWindow | eval/evaluator.go:545-632 | The window a range function sees lies in (t - range, t], increases, and is all of the series there. |
| RangeFunctions.EmptyWindowIsSilent | eval/evaluator.go:545-632 | No range function reports anything for an empty window. |
| RangeValues.SeenIsInRange | eval/staleness.go:50-61 | What a range function sees is exactly the samples of the series in (t - offset - range, t - offset]. |
| RangeValues.TwoSamples | eval/evaluator.go:553-573 | rate, increase, delta, irate, idelta, deriv and predict_linear report a value if and only if the range holds two samples. |
| RangeValues.RateAndIncrease | eval/evaluator.go:553-561 | Of two plans that differ in the name only, the rate times the seconds of the range is the increase, and both exist or neither. |
| RangeValues.IncreaseBetween | eval/evaluator.go:559-561 | The increase of counters that are not negative lies between the growth that was counted, resets included, and that growth scaled from the span of the samples to the range. |
| RangeMeanings.DeltaNegates | eval/evaluator.go:562-564 | The delta of negated samples is the negated delta: nothing is clamped, corrected for resets or cut at zero. |
| RangeMeanings.Extremes | eval/over_time.go:37-62 | A number is reported by min_over_time if and only if it is the value of a sample in the range and no sample there has a smaller one; the same for max_over_time and greater ones. |
| RangeMeanings.LastValue | eval/over_time.go:63-69 | last_over_time is the value of the sample in the range that no other follows. |
| RangeMeanings.CountValue | eval/over_time.go:33-36 | count_over_time is the size of the set of samples in the range. |
| RangeMeanings.NeighbourCounts | eval/extrapolate.go:178-196 | resets and changes are the sizes of the sets of neighbouring pairs in the range that fall, and that differ. |
| RangeMeanings.LastTwoValues | eval/extrapolate.go:77-101 | irate times the seconds between the last two samples in the range is what the counter gained between them, after a reset the later value; idelta is their difference. |
| RangeMeanings.SumsAddUp | eval/over_time.go:22-32 | The sum over a range is the sum over its earlier part plus the sum over its later part, wherever it is cut. |
| RangeMeanings.Spreads | eval/over_time.go:75-93 | The mean times the count is the sum, the variance is the mean of the squares less the square of the mean, and the deviation is its root. |
| RangeMeanings.QuantileEnds | eval/over_time.go:95-121 | quantile_over_time at 0 and 1 is min_over_time and max_over_time, and outside an infinity. |
| RangeMeanings.MedianDistance | eval/over_time.go:124-142 | mad_over_time is the middle quantile of the distances of the samples from their middle quantile. |
| RangeMeanings.LineValues | eval/evaluator.go:553-573 | Of samples on a line, irate and deriv report its slope, idelta its rise between the last two samples, and predict_linear its value the given seconds after the evaluation time. |
| RangeMeanings.LineRates | eval/evaluator.go:553-564 | Of samples on a line with short gaps at both ends, rate is the slope, increase and delta its rise over the whole range, provided that a counter does not start inside it. |
| RangeMeanings.PredictionOfSeries | eval/extrapolate.go:167-176 | A prediction is the one for now plus the derivative times the parameter. |
| Trigonometry.MathOpsAgree | eval/evaluator.go:920-959 | For every math library with the facts listed, matrix math and vector math agree on a step for all values if and only if the step is not trigonometric: range queries drop those steps, deg and rad included. |
| Trigonometry.SafeChainsAgree | eval/evaluator.go:1186-1262 | Matrix and vector math agree on a chain without trigonometric steps, and on one that is harmless: a computed bond of the two values (equal, of the same sign, unknown) and computed bounds of both tell that later steps forget the difference. |
| TrigonometryLimits.TrigThenTail | eval/evaluator.go:1186-1262 | For a trigonometric step that is defined everywhere, followed by any sorting, clamping, absolute values and signs, that is exact: for every library with the facts the two evaluations agree on all values if and only if the chain is harmless. |
| TrigonometryLimits.SignOfDegrees | eval/evaluator.go:1247-1250 | sgn(deg(x)) is harmless and sgn(sin(x)) is not. |
| Trigonometry.FactsAgree | eval/evaluator.go:1186-1262 | Some library has all the facts that are assumed of the real functions. |
| Aggregation.AccUpdate | eval/aggregations.go:47-72 | One more member keeps the running record (compensated sum, running mean, Welford moments, extremes) equal to the statistics of the set of members seen. |
| Aggregation.ReportIsAggregate | eval/aggregations.go:74-101 | The record of a finished group reports the sum, mean, least, greatest, count, or population variance of its members, defined independently over the set. |
| Aggregation.AggregateUnique | eval/aggregations.go:18-101 | The independent definition of each aggregate determines one value. |
| VectorAggregation.AggregateVector | eval/aggregations.go:18-111 | The hash-map loop over a vector in any order yields one distinct element per group, labelled with the group labels, whose value is the aggregate of exactly the members of that group. |
| VectorAggregation.CollectGroups | eval/aggregations.go:18-72 | After the loop the groups partition the vector by key, and each record holds the statistics of its part. |
| InstantEval.ApplyAggChain | eval/evaluator.go:1264-1270 | A chain of aggregations is applied innermost first. |
| InstantEval.ApplyMathChain | eval/evaluator.go:1186-1262 | The in-place math loops apply the whole chain to every value and keep labels and times. |
| InstantEval.EvalInstant | eval/evaluator.go:360-462 | One instant evaluation is select, then aggregate, then math, as maps from labels to values. |
| StepFirst.BuildMatrixStepFirst | eval/evaluator.go:962-996 | The step-first evaluator yields distinct, non-empty, increasing series whose column at every step is the instant vector of that step, and nothing between steps. |
| StepFirst.RangeResultUnique | eval/evaluator.go:962-996 | At most one table of samples is the range result of a plan. |
| Columns.TableExtensionality | eval/evaluator.go:326-345 | Splitting a matrix by step and regrouping it by series is a round trip: a normal table is determined by its columns. |
| MatrixColumns.CollectTimestamps | eval/evaluator.go:663-690 | The collected timestamps are all and only those of the matrix, ascending. |
| MatrixColumns.AggregateMatrixSlow | eval/evaluator.go:816-874 | Every column of the result is the aggregation chain applied to the same column of the input. |
| MatrixAggregation.SlotUpdate | eval/evaluator.go:723-757 | Updating a slot of a group at a timestamp keeps it the aggregate of the members that have contributed there. |
| MatrixAggregation.AggregateAt | eval/evaluator.go:708-758 | The cursor pass over one timestamp lets exactly the series with a sample there contribute, once each, and leaves all cursors past it. |
| MatrixAggregation.FinishedPoint | eval/evaluator.go:760-775 | A group has a sample at a timestamp if and only if some member has, and it is the aggregate of the members then. |
| MatrixAggregation.AggregateMatrixSimple | eval/evaluator.go:691-775 | The pre-keyed cursor aggregation refines the vector aggregation at every timestamp, for sum, avg, min, max, count and group. |
| MatrixAggregation.AggregateMatrix | eval/evaluator.go:636-690 | Whichever path is chosen, every column of the result is the aggregated column of the input. |
| RangeQuery.SelectedColumn | eval/evaluator.go:466-520 | The column of the series-first selection at a step is the instant vector of that step. |
| RangeQuery.ApplyMathChainMatrix | eval/evaluator.go:891-911 | The matrix math rewrites every sample with the whole chain; sorting steps change no sample. |
| RangeQuery.BuildMatrix | eval/evaluator.go:466-542 | The series-first evaluator yields the range result of the plan: at every step the selected, aggregated and mapped vector of that step. |
| RangeQuery.SeriesFirstEqualsStepFirst | eval/evaluator.go:466-542 | On every plan whose math chain has no trigonometric step or is harmless, the series-first and the step-first range result are the same samples for the same labels. |
| RangeQuery.RunBothEvaluators | eval/evaluator.go:466-542 | On such plans the two programs themselves return equal tables, for any samples, steps, offset, range function and aggregation chain. |
| FetchWindow.GenerateSteps | eval/evaluator.go:1115-1132 | The loop yields the steps start, start + step, ... up to the end, and the end alone for a degenerate query. |
| FetchWindow.StepsAreMilliseconds | eval/evaluator.go:1115-1132 | The steps are the milliseconds that hold start, start + step and so on, and the last one is the last that does not pass the end. |
| FetchWindow.StepsWithinQuery | eval/evaluator.go:1115-1132 | All steps lie between start and end, and strictly increase for a step of at least a millisecond. |
| FetchWindow.RangeValueFromFetched | translator/matrix_selector.go:27-43 | At every step and for every offset, a range function computes from the fetched rows what it computes from the whole history. |
| FetchWindow.RangeQueryFromFetched | translator/plan.go:147-154 | A table is the range result over the fetched rows if and only if it is the range result over the whole history, for range functions. |
| FetchWindow.InstantValueFromFetched | translator/vector_selector.go:26-40 | For an instant selector the fetched rows give the value of the whole history if and only if it is not the case that the step is the first one and the sample needed sits exactly at the exclusive start of the fetch. |
| LabelKeys.MatchingKey | eval/binary.go:50-76 | The loops write the key of the sorted names, for any iteration order of the map. |
| LabelKeys.OnKeyCanonical | eval/binary.go:50-76 | Keys over on(...) names are equal if and only if the label sets agree on those names, a missing label reading as empty, provided the values are free of the byte that ends a value or, with the names, of the byte that ends a name. |
| LabelKeys.IgnoringKeyCanonical | eval/binary.go:50-76 | Keys of an ignoring match are equal if and only if the label sets agree outside the ignored names. |
| LabelKeys.GroupKeyCanonical | eval/aggregations.go:13-17 | Group keys are equal if and only if the group labels are, for clean labels. |
| LabelKeys.LabelsKeyInjective | eval/evaluator.go:347-357 | The accumulator key of a label set determines the label set. |
| LabelKeys.KeyCollision | eval/binary.go:50-76 | A value that contains the terminator byte makes two different label sets share a key, so the restriction on bytes is needed. |
| LabelKeys.BuildGroupLabels | eval/aggregations.go:248-269 | The two branches keep exactly the listed, or all but the listed, labels. |
| BinaryVectors.VectorAnd | eval/binary.go:177-191 | The left elements whose match occurs on the right. |
| BinaryVectors.VectorOr | eval/binary.go:192-207 | The left elements, and the right ones whose match does not occur on the left; the labels stay distinct. |
| BinaryVectors.VectorUnless | eval/binary.go:208-229 | The left elements whose match does not occur on the right. |
| BinaryJoin.BuildOutputLabels | eval/binary.go:230-262 | The labels of a match are those it was made on, of the base side, overlaid with the included labels of the other side; the base is the right side of a one-to-many match. |
| BinaryJoin.VectorBinaryOp | eval/binary.go:80-176 | The hash join is an error if and only if two elements of a side match alike; otherwise it is the join on the matching labels, with distinct output labels. |
| Operators.MatchCompared | eval/binary.go:15-48 | Of a matched pair, each of the six comparisons keeps the match exactly when it holds between the left number and the right one, with the left number as value. |
| Operators.MatchAnswered | eval/binary.go:140-160 | With bool every matched pair yields 1 where the comparison would keep it, and 0 otherwise. |
| Operators.OneOfThree | eval/binary.go:30-42 | Exactly one of greater, less and equal keeps a matched pair. |
| Operators.OnlyMatches | eval/binary.go:80-176 | Nothing else is in the result: every element carries the labels of a matched pair. |
| Operators.AnyMatchGives | eval/binary.go:15-48 | The value of a match depends on its two numbers only, for vectors of any size. |
| Operators.SumLaws | eval/binary.go:17-20 | Zero is neutral for plus, whose order is free and which minus undoes. |
| Operators.ProductLaws | eval/binary.go:21-26 | One is neutral for times, whose order is free, which distributes over plus, and which division by any number but zero undoes. |
| Operators.ElementCompared | eval/evaluator.go:1378-1412 | A comparison of a vector with a number keeps exactly the elements for which it holds, with their values. |
| Operators.NumberCompared | eval/evaluator.go:1378-1412 | With the number on the left the comparison holds between the number and the element, and what is kept has the number for its value. |
| Operators.ElementAnswered | eval/evaluator.go:1378-1412 | With bool every element is answered, 1 where it would be kept and 0 otherwise. |
| BinaryEval.VecsByStep | eval/evaluator.go:326-345 | At every time the split holds the vector of the samples at that time, and nothing else. |
| BinaryEval.EvalBinaryMatrix | eval/evaluator.go:247-317 | A binary operator on two matrices fails if and only if some step is ambiguous; otherwise the result at each step is the operator on the two vectors of that step, with distinct series and increasing timestamps. |
| BinaryEval.ApplyScalarMatrix | eval/evaluator.go:1378-1412 | At every time the result is the operator between each sample and the scalar; filtered samples and empty series disappear. |
| Translator.ScanMatchers | translator/matrix_selector.go:12-25 | The matcher loop keeps the label matchers in order and resolves the metric name. |
| Translator.SQLPlan.AppendMath | translator/functions.go:255-258 | Patching a plan in place appends one math step and leaves the rest of the tree unchanged. |
| Translator.SQLPlan.AppendAggregation | translator/aggregations.go:39-40 | The aggregation step goes to the end of the chain, the rest of the tree unchanged. |
| Translator.SQLPlan.OverwriteAggregation | translator/aggregations.go:42-51 | The parameter of the inner function is overwritten. |
| Translator.SQLPlan.DropScalarSides | translator/binary.go:40-49 | A scalar side survives as its number only, in place. |
| Translator.Transpile | translator/translator.go:33-56 | The recursive program on mutable plans succeeds exactly when the pure translation does, and builds its plan on fresh nodes. |
| Translator.TranspileCall | translator/functions.go:9-93 | The dispatch on function names, with its errors. |
| Translator.TranspileBinaryExpr | translator/binary.go:7-52 | Both sides are translated, an error on either is an error, scalar sides are pulled out. |
| Selectors.NameOfPlan | translator/vector_selector.go:9-24 | The single metric name of the plan stands for the name matchers of the selector, whatever regular expressions accept, if and only if the selector names its metric and its matchers on the name are equalities with it or inequalities with another. |
| Selectors.LabelMatchersMeaning | translator/vector_selector.go:12-24 | The matchers of the plan are exactly those not on the metric name. |
| Selectors.CompiledMeans | translator/plan.go:136-178 | For a selector that names its metric, and whose label matchers the database reads as they are meant, the rows asked for are exactly the series that pass all matchers of the selector. |
| Selectors.SelectorCompiled | translator/plan.go:136-178 | What is asked for is what the selector means, whatever is stored and whatever regular expressions match and find, if and only if the selector names its metric and has no regular expression on a label, or has contradictory label matchers so that nothing passes. |
| PlanEval.Evaluate | eval/evaluator.go:50-324 | The recursive evaluator fails exactly when the table semantics of the plan does, and returns its table: flat plans, scalar sides, sides that look scalar, vector sides. |
| PlanEval.EvalTwoSided | eval/evaluator.go:226-317 | Two plan sides: a side that is one series without labels is used as a scalar and the math chain is then dropped, otherwise the operator is applied step by step. |
| Preservation.SpineMeaning | translator/aggregations.go:40 | The aggregation chain is built and run innermost first: flat select-and-aggregate over the fetched rows is the bottom-up meaning over the whole history. |
| Preservation.MathOnPlan | translator/functions.go:255-258 | Appending a math step to any plan that keeps its math applies that step to its result. |
| Preservation.ScalarMeans | eval/evaluator.go:163-189 | A number operand means the operator between each sample and the number. |
| Preservation.NegationMeans | translator/translator.go:58-75 | A negation, translated as zero minus the expression, negates every sample. |
| Preservation.TranslationPreservesMeaning | translator/translator.go:33-56 | For every expression in normal form whose selectors name their metrics, with vector operands and faithful fetches: translate, fetch and evaluate gives at every step the bottom-up meaning of the expression (for a selector, the stored series that pass its matchers) over the whole history, and an error exactly when some step has none. |
| Preservation.RunQuery | eval/evaluator.go:50-140 | The programs composed (translator on the syntax tree, evaluator on its plan) return a matrix whose column at every step is the meaning of the expression there. |
| Calls.RangeReadingsAgree | translator/functions.go:95-166 | The translator takes the selector and the parameters of every range function from where the syntax has them: the quantile first, the two smoothing factors in their order. |
| Calls.PointwiseReadingsAgree | translator/functions.go:241-311 | The translator takes a call for a pointwise function exactly when the syntax says so. |
| Calls.PointwiseValuesAgree | translator/functions.go:241-311 | The step it appends computes what the call means: the bounds of a clamp in their order, a rounding step of one if none is given. |
| CallMeanings.ClampMeans | translator/functions.go:260-269 | For lo <= hi, clamp(x, lo, hi) has the elements of x; every value lies in [lo, hi], is that of x where that lies there, and the nearer bound elsewhere. |
| CallMeanings.ClampSideMeans | translator/functions.go:271-283 | clamp_min(x, b) is the greater of b and the value of x, clamp_max(x, b) the lesser, element by element. |
| CallMeanings.RoundMeans | translator/functions.go:285-298 | round(x, to) is a multiple of to at most half of it away, of two such multiples the one away from zero; round(x) takes 1. |
| CallMeanings.SimpleMeans | eval/evaluator.go:1186-1262 | abs, ceil, floor and sgn are characterised by inequalities; sorting changes no value. |
| CallMeanings.LibraryMeans | eval/evaluator.go:1186-1262 | Roots, powers, logarithms and trigonometric functions ask the library by their own name; deg and rad are products with 180 / pi and pi / 180. |
| CallMeanings.RangeCallDenotes | translator/functions.go:95-166 | A range function means, for every series that its selector means, the value of the function of that name over the range, and nothing for the others. |
| CallMeanings.QuantileCallEnds | translator/functions.go:128-145 | quantile_over_time(0, x[r]) means what min_over_time(x[r]) means, and that of 1 what max_over_time(x[r]) means. |
| CallMeanings.PredictionGrows | translator/functions.go:109-126 | predict_linear(x[r], d) is predict_linear(x[r], 0) plus d times deriv(x[r]), series by series. |
| CallMeanings.SmoothingCallJump | eval/smoothing.go:13-39 | After a level, a last sample that jumps by d raises double_exponential_smoothing(x[r], sf, tf) by sf times d: the first factor weighs the jump. |
| CallMeanings.ClampedResult | translator/functions.go:260-269 | Every column that a query for clamp(e, lo, hi) returns has the elements of e, and only values in [lo, hi]. |
| Constants.NumbersAreFolded | translator/binary.go:38-48 | Any nesting of number literals, pi(), vector(n), parentheses, signs, arithmetic and comparisons with bool evaluates to one sample without labels, at the start of the query, whose value is that of ordinary arithmetic; in whichever of its forms the plan has its operands. |
| FrozenOperands.FrozenRight | eval/evaluator.go:227-231 | A right operand that is one series without labels is used at every step through its first sample. |
| FrozenOperands.FrozenLeft | eval/evaluator.go:232-235 | So is a left operand, unless the right one is. |
| FrozenOperands.FrozenRightExactly | eval/evaluator.go:227-231 | A joining operator (arithmetic, or a comparison with or without bool) with such a right operand means what is evaluated if and only if, at every step, no match is ambiguous, the first value drops every labelled sample, and the unlabelled match fares with the first value as with the value of the step. |
| FrozenOperands.FrozenLeftExactly | eval/evaluator.go:232-235 | The same with such a left operand and another right one. |
| FrozenOperands.FrozenRightMeans | eval/evaluator.go:227-231 | An arithmetic operator with such a right operand means what is evaluated if and only if, at every step that has anything on the left, the left is the one unlabelled series too, the right is there, and the operator gives the same for its value as for its first value. |
| FrozenOperands.InjectiveAgrees | eval/binary.go:15-22 | For plus and minus the last condition says that the right operand has its first value. |
| FrozenOperands.FrozenLeftMeans | eval/evaluator.go:232-235 | With such a left operand and another right one, arithmetic means what is evaluated if and only if the right one has no element at any step. |
| FrozenOperands.FrozenSetOperator | eval/binary.go:42-48 | A set operator with such a right operand evaluates to nothing, which is what it means if and only if no step has anything to say: never for or, since the operand itself counts. |
| FrozenOperands.FrozenLeftSetOperator | eval/evaluator.go:232-235 | The same with such a left operand: right if and only if the left is empty at every step at which and finds a match, or unless finds none; for or never. |
| FrozenOperands.FrozenNegation | translator/translator.go:63-72 | The negation of an operand that is one series without labels over the query is evaluated to one sample, at the start of the query: the negated first value. That is right if and only if the operand has a sample at the start and no other. |
| FrozenOperands.ForgottenMath | eval/evaluator.go:227-235 | Pointwise math around a negation, or around an operator with such an operand, is not evaluated; where the operator is evaluated correctly, the whole is if and only if the math changes none of the values. |
| FrozenWitnesses.SumOfSumsIsWrong | eval/evaluator.go:227-231 | sum(x) + sum(x) over two steps, of a series that is 1 and a second later 2, is evaluated wrongly. |
| FrozenWitnesses.AbsoluteOfMinusOne | translator/translator.go:63-72 | abs(-x) of a labelled series of value 1 is evaluated wrongly. |
| Hoisting.CanonicalPlan | translator/functions.go:241-258 | Any nesting of math and aggregations has the very same plan as its canonical form, in which all math stands outside all aggregations and the parameter of the range function under an aggregation is zero. |
| Hoisting.PlanMeansCanonical | eval/evaluator.go:405-414 | What the plan of such an expression computes is the meaning of its canonical form. |
| MathLimits.MathUnderAggregation | translator/functions.go:241-311 | An aggregation of a pointwise function of a selector is evaluated correctly for all data with faithful fetches, all steps and regular math libraries if and only if nothing passes the selector, or it names its metric and the name and the parameters of the function meet a condition for the aggregation: any function but abs under min and max, none but the identity or a clamp to zero under sum, and so on for all eight aggregations and fifteen functions; weaker ones where the selector pins every label that the aggregation drops. |
| MathLimits.TradingChainIsCorrect | translator/functions.go:255-258 | Any nesting of aggregations and pointwise functions in which each aggregation meets that condition with every function inside it, and loses no parameter, is always evaluated correctly. |
| ParameterLimits.PredictionUnderAggregation | translator/aggregations.go:45 | An aggregation of predict_linear is evaluated correctly for all data and steps if and only if nothing passes the selector, the range never holds two samples, or the selector names its metric and the parameter is zero or the aggregation ignores the values. |
| ParameterLimits.QuantileUnderAggregation | translator/aggregations.go:45 | An aggregation of quantile_over_time is evaluated as one of the minimum, which is always right if and only if nothing passes the selector, the range never holds a sample, or the selector names its metric and the parameter is zero, the aggregation ignores the values, or the parameter is in [0, 1] and the range never holds two samples. |
| ParameterLimits.SmoothingUnderAggregation | eval/smoothing.go:14-19 | An aggregation of double_exponential_smoothing reports nothing, which is right if and only if the call could not report anything anyway: nothing passes the label matchers or those on the name, a factor lies outside (0, 1), or the range never holds two samples. |
| Lru.StackInclusion | proxy/cache/cache.go:88-125 | On the same operations under any clock, a larger cache holds every slot of a smaller one, in the same order, and has at least as much room left to fill. |
| Lru.LargerCacheHits | proxy/cache/cache.go:88-104 | A larger cache never turns a hit into a miss or into another answer. |
| Lru.RunWellformed | proxy/cache/cache.go:88-130 | After every run the keys are distinct and the size is within its bound. |
| Lru.RecencyOrder | proxy/cache/cache.go:88-125 | After every run the list is in the order of last use, so that the slot evicted is the least recently used. |
| Lru.HitIsLatestSet | proxy/cache/cache.go:88-104 | A hit returns the entry of the latest store under the key, which has not outlived its time to live. |
| Lru.OnlyForgets | proxy/cache/cache.go:88-125 | The bounded cache holds nothing that a cache without a size would not hold. |
| Lru.EnoughRoom | proxy/cache/cache.go:106-125 | With room for all keys stored, the cache answers like the one without a size. |
| Cache.ResultCache.constructor | proxy/cache/cache.go:54-64 | A new cache is empty; a size below one is taken as one. |
| Cache.ResultCache.Get | proxy/cache/cache.go:88-104 | A lookup answers as the list model, and leaves list and map in bijection with the list that the model prescribes. |
| Cache.ResultCache.Set | proxy/cache/cache.go:106-125 | A store updates in place or inserts and evicts from the back, exactly as the list model, keeping the bijection and the size bound. |
| Cache.ResultCache.RemoveElement | proxy/cache/cache.go:127-130 | The element leaves both the list and the map. |
| Cache.ResultCache.EvictOverflow | proxy/cache/cache.go:120-124 | The eviction loop drops exactly the slots beyond the size, from the back. |
| Singleflight.RunInvariant | proxy/cache/cache.go:136-161 | The invariant of flights, group, cache and callers holds in every state of every interleaving. |
| Singleflight.OneRunPerKey | proxy/cache/cache.go:144-157 | In every reachable state at most one function runs per key, and only while the key is not in the cache. |
| Singleflight.NoStartAfterStore | proxy/cache/cache.go:145-157 | In every run, once a flight has stored an entry, the function starts again for its key only after a lookup of the key in between has found that entry in the cache and expired, or a store of another key in between has evicted it from a full cache as the last one. |
| Singleflight.StaysUntil | proxy/cache/cache.go:88-130 | In every run, a cached entry is still there later unless some action in between has seen it expired or has evicted it. |
| Singleflight.EntryLeaves | proxy/cache/cache.go:88-130 | An entry leaves the cache only when a lookup finds it expired, or as the least recently used one when another key is stored in a full cache. |
| Singleflight.StoreIsCached | proxy/cache/cache.go:153-155 | What a flight stores is in the cache afterwards, with its time to live. |
| Singleflight.CacheIsSequential | proxy/cache/cache.go:136-161 | However fetches interleave, the cache is the one of a sequence of lookups (one when a fetch begins, one when its flight checks) and stores on the list model, so that the theorems over its runs hold here too. |
| Singleflight.CountersAddUp | proxy/cache/cache.go:137-141 | Hits and misses together count every fetch once. |
| Singleflight.HitsAreAnswers | proxy/cache/cache.go:136-143 | In every run the hits are the number of fetches that were done as soon as they had begun, and those are exactly the ones that found a live entry of their key, which they return. |
| Singleflight.SameResultForMembers | proxy/cache/cache.go:144-161 | All callers of a flight get the same entry or the same error, at whatever times they receive it. |
| Singleflight.CachedWasComputed | proxy/cache/cache.go:149-156 | Every cached entry was returned by the function for that key in a flight led with store; errors and unstored results never enter the cache. |
| Singleflight.LeadersDecide | proxy/cache/cache.go:136-157 | In every run, each flight was opened by a thread whose latest fetch asked for its key, and it stores exactly if that fetch wanted it to. |
| Singleflight.StoredWasAsked | proxy/cache/cache.go:136-157 | What no fetch asked to store is never in the cache. |
| Singleflight.FetchedWasComputed | proxy/cache/cache.go:136-161 | Every fetch returns what the function returned for its key; an error only from its own flight; hits are never errors. |
| Singleflight.NoDeadlock | proxy/cache/cache.go:136-161 | A caller that is not done can act, or the flight it waits for can. |
| Extrapolate.ComputeExtrapolatedRate | eval/extrapolate.go:16-75 | The loop and the branches compute the rate defined from the raw increase and the extended interval. |
| Extrapolate.IntervalWithinWindow | eval/extrapolate.go:37-68 | The extrapolated interval is at least the sampled interval and at most the window. |
| Extrapolate.FittedLineStaysNonNegative | eval/extrapolate.go:45-54 | The extension at the start never takes the fitted line of a counter below zero. |
| Extrapolate.ResetsAreTransparent | eval/extrapolate.go:25-35 | Replacing the samples by their reset-unwrapped sequence leaves rate and increase unchanged. |
| Extrapolate.IncreaseBounds | eval/extrapolate.go:16-75 | The increase of non-negative samples is not negative, at least the raw increase and at most the raw increase scaled to the window. |
| Extrapolate.RateTimesWindow | eval/extrapolate.go:70-75 | Rate times the seconds of the window is the increase. |
| ExtrapolateExact.ReportedParts | eval/extrapolate.go:16-75 | increase and delta are the growth plus, at either end, what the mean growth adds over the gap if it is shorter than 1.1 mean intervals, and over half a mean interval otherwise; the rate is that over the seconds of the window, and no counter goes below zero. |
| ExtrapolateExact.WholeWindowExactly | eval/extrapolate.go:37-68 | The extrapolated interval is the whole window if and only if both gaps are short, or just half a mean interval, and a counter has not reached zero inside the first gap. |
| ExtrapolateExact.LineIsExact | eval/extrapolate.go:16-75 | For samples on a line, with short gaps at both ends and the zero of a counter outside the window, increase and delta are the slope times the seconds of the window, and the rate is the slope. |
| ExtrapolateExact.LongGaps | eval/extrapolate.go:37-68 | With long gaps at both ends, before and after the cut at zero, the result of n samples is their growth times n / (n - 1). |
| ExtrapolateExact.StartedInside | eval/extrapolate.go:45-54 | A counter that reaches zero shortly before its first sample is credited with the value of that sample. |
| CounterBuckets.BucketTotalsAreTheIncrease | proxy/clickhouse/tier_query.go:119-161 | However raw samples are split into buckets, the bucket totals add up to last - first + counter correction, as the extrapolated rate computes it. |
| CounterBuckets.SegmentCutLosesOneDelta | proxy/clickhouse/tier_query.go:119-161 | Cutting the series into two segments loses exactly the delta across the cut. |
| Regression.VarXPositive | eval/extrapolate.go:117-157 | The variance of at least two strictly increasing times is positive, so the slope never divides by zero. |
| Regression.LinearRegression | eval/extrapolate.go:117-157 | The compensated one-pass loop, with its shortcut for constant values, yields slope and intercept. |
| Regression.NormalEquations | eval/extrapolate.go:117-157 | Slope and intercept satisfy both normal equations. |
| Regression.NormalUnique | eval/extrapolate.go:117-157 | No other slope and intercept satisfy both equations. |
| Regression.LineIsFitted | eval/extrapolate.go:117-157 | Samples on a line are fitted by that line. |
| Regression.RegressionIsOptimal | eval/extrapolate.go:117-157 | No other line has a smaller sum of squared residuals. |
| Regression.SameLine | eval/extrapolate.go:117-157 | The slope does not depend on the intercept time, and the intercept moves along the line. |
| Regression.PredictionDependsOnAbsoluteTime | eval/extrapolate.go:167-176 | A prediction depends only on the absolute time it is made for. |
| Reals.KahanSumInc | eval/extrapolate.go:103-114 | Over the reals the compensation stays zero and the sum is exact. |
| Variance.StdvarOverTime | eval/over_time.go:75-87 | The one-pass loop computes the mean squared deviation from the mean. |
| Variance.VarianceIsOrderFree | eval/over_time.go:75-87 | The variance does not depend on the order of the values. |
| Quantile.QuantilesAgree | eval/aggregations.go:220-241 | For every non-empty list the proxy's quantile equals that of the aggregation if and only if 0 <= phi <= 1, and there the over-time form agrees too. |
| Quantile.ProxyQuantileDefined | proxy/server/handlers/query.go:740-793 | The proxy's index arithmetic leaves the list if and only if the rank is negative or not below the length. |
| Quantile.QuantileBetweenNeighbours | eval/aggregations.go:220-241 | The quantile lies between the two order statistics around its rank. |
| Quantile.QuantileKinds | eval/aggregations.go:220-241 | The quantile of nothing is no number, that outside [0, 1] an infinity, and its ends are the first and the last of the sorted values. |
| Quantile.QuantileMonotone | eval/aggregations.go:220-241 | The quantile is monotone in phi. |
| Quantile.OverTimeIsOrderFree | eval/over_time.go:95-142 | The quantile and the median deviation of a window do not depend on the order of its values. |
| Quantile.OverTimeWithinValues | eval/over_time.go:95-121 | The quantile of a window lies between two of its values. |
| Quantile.QuantileOfEven | eval/over_time.go:95-121 | Between evenly spaced values the quantile is where the line through them is at the rank. |
| Quantile.MadOverTime | eval/over_time.go:124-142 | The loops around the two sorts compute the median distance from the median. |
| Smoothing.Smooth | eval/smoothing.go:13-39 | The loop computes the recurrence of level and trend, after refusing factors outside (0, 1) and windows of fewer than two samples. |
| Smoothing.LineIsSmooth | eval/smoothing.go:25-36 | Samples on a line are smoothed to themselves, whatever the two factors. |
| Smoothing.JumpIsSmoothed | eval/smoothing.go:25-36 | After a level, a jump counts with the smoothing factor, and the trend at the next sample is the trend factor times that. |
| Smoothing.SmoothingReports | eval/smoothing.go:14-19 | A value is reported if and only if both factors lie in (0, 1) and the window holds two samples. |
| Histogram.MergeAllPermute | eval/histogram.go:77-94 | Merging buckets of equal bounds does not depend on the order they arrive in. |
| Histogram.AnySortMergesAlike | eval/histogram.go:32-44 | Whatever an unstable sort does with ties, coalescing afterwards gives the same buckets. |
| HistogramQuantile.MonotoneShape | eval/histogram.go:96-115 | The clamped counts never decrease and keep the bounds. |
| HistogramQuantile.LocateFirst | eval/histogram.go:52-58 | On non-decreasing counts the binary search finds the first bucket that reaches the rank. |
| HistogramQuantile.QuantilePermutes | eval/histogram.go:20-74 | The result does not depend on the order of the buckets. |
| HistogramQuantile.QuantileInBucket | eval/histogram.go:52-74 | With observations and a positive quantile the value lies in the bucket that its rank selects and is at most the last finite bound. |
| HistogramQuantile.QuantileMonotone | eval/histogram.go:20-74 | The value is monotone in the quantile. |
| HistogramQuantile.QuantileAtZero | eval/histogram.go:52-74 | At quantile zero the interpolation divides zero by zero if and only if the first bucket is empty and its bound positive. |
| HistogramInverse.QuantileInvertsDistribution | eval/histogram.go:52-74 | Of a usable histogram, for q in (0, 1] whose rank falls into a bucket of finite width: the piecewise linear function through bounds and cumulative counts has the value q times the observations at the quantile. |
| HistogramInverse.ValueDividesBucket | eval/histogram.go:66-72 | The quantile divides its bucket as its rank divides the observations in it. |
| HistogramInverse.QuantileAtBound | eval/histogram.go:56-65 | Where the rank falls into the last bucket the quantile is the last finite bound, and where it falls into a first bucket whose bound is not positive it is that bound. |
| HistogramInverse.MonotoneKeeps | eval/histogram.go:96-126 | Counts that are not negative stay as they are if and only if each is the one before it or exceeds it by at least a part in 10^12. |
| HistogramInverse.MonotoneIsRunningMaximum | eval/histogram.go:96-126 | Each prepared count is one of the counts up to its bucket, and falls short of none of them by more than a part in 10^12. |
| HistogramQuantile.CoalesceBuckets | eval/histogram.go:77-94 | The in-place loop leaves the merged buckets at the front of the array. |
| HistogramQuantile.EnsureMonotonic | eval/histogram.go:96-115 | The in-place loop leaves the clamped buckets and reports whether a decrease was forced away. |
| HistogramQuantile.ComputeHistogramQuantile | eval/histogram.go:20-74 | The in-place program on any array of buckets returns the quantile defined on their merge. |
| Segments.Validate | proxy/config/config.go:93-122 | Comparing neighbours accepts exactly the configurations whose thresholds increase over all pairs of tiers and whose raw data outlives the first compaction. |
| Segments.SelectTier | proxy/config/config.go:125-136 | The last-listed tier whose minimum step is met, or none. |
| Segments.SelectedIsCoarsestAllowed | proxy/config/config.go:125-136 | In a valid configuration the selected tier has the largest minimum step that the query allows. |
| Segments.QuerySegments | proxy/config/config.go:149-215 | The segments are non-empty, ordered, disjoint and within the range; each holds only instants of its owner, the last-listed tier whose boundary lies after them, or raw, and names the table of that owner; an instant is covered if and only if its owner is no coarser than the selected tier. |
| Segments.UncoveredInstants | proxy/config/config.go:187-200 | The instants not covered are exactly those owned by a tier that is coarser than the selected one. |
| Segments.FirstTierLeavesRaw | proxy/config/config.go:160-200 | An instant belongs to the coarsest tier that compacted it at least two hours ago, and to the raw samples if there is none. |
| Segments.YoungIsRaw | proxy/config/config.go:149-215 | Of a valid configuration, the raw samples serve exactly the instants up to two hours older than the first compaction. |
| Segments.TilesExactlyWhen | proxy/config/config.go:149-215 | With a valid configuration and growing resolutions, the segments tile the range if and only if the selected tier is the last one or the range starts after the next tier's boundary. |
| SlidingWindow.WindowedEval | proxy/server/handlers/query.go:503-567 | The two-pointer loop evaluates every step on exactly the buckets in (t - range, t], emits a sample if and only if there are any, advances the left pointer at most once per bucket, and scans each window in full. |
| SlidingWindow.WindowedMatrix | proxy/server/handlers/query.go:483-569 | The loop over the series, in any order, yields the windowed samples of each and omits series without samples. |
| WindowScans.LinearExactlyWhenSpaced | proxy/server/handlers/query.go:503-541 | No data make the loop scan more buckets than there are if and only if consecutive steps are at least a range apart. |
| WindowScans.ScansAreNotLinear | proxy/server/handlers/query.go:479-482 | For every constant there are buckets and steps for which the scans exceed that many times their number. |
| SlidingWindow.WindowMembers | proxy/server/handlers/query.go:503-567 | A window holds exactly the buckets of the row after its start and up to its end. |
| SlidingWindow.FirstOfWindow | proxy/server/handlers/query.go:523-541 | The first time is the least of the window, not that of its first bucket. |
| SlidingWindow.LastOfWindow | proxy/server/handlers/query.go:523-541 | The last time is the greatest of the window. |
| SlidingWindow.RateTimesRange | proxy/server/handlers/query.go:546-563 | Rate times the seconds of the range is the increase. |
| SlidingWindow.IncreaseBounds | proxy/server/handlers/query.go:546-563 | The increase is at most five per cent above the counted total, and at least the total when the samples span no more than the range. |
| SlidingWindow.IncreaseScales | proxy/server/handlers/query.go:546-563 | The increase is the counted total times range over span where that adds at most five per cent, five per cent more than the total where it would add more, and the total itself for one bucket or for samples at one time. |
| GaugeBuckets.GaugeRefinesRaw | proxy/server/handlers/query.go:604-685 | However raw samples are split into buckets, each of the five gauge functions gives on the buckets what it gives on the samples. |
| GaugeBuckets.GaugeToMatrix | proxy/server/handlers/query.go:571-600 | Rows that come one per step give one sample each, by the function, and series without rows are left out. |
| GaugeBuckets.RowRefinesRaw | proxy/server/handlers/query.go:571-600 | The sample of a row is what the function gives on the raw samples that the row summarises. |
| Writer.Writer.Write | proxy/clickhouse/writer.go:60-67 | A request is accepted at the end of the queue or refused as a whole. |
| Writer.Writer.Receive | proxy/clickhouse/writer.go:75-80 | A request moves to the batch, which is flushed exactly when it has reached its size; conservation and the size bound are kept. |
| Writer.Writer.Tick | proxy/clickhouse/writer.go:81-85 | A tick flushes the batch if there is any. |
| Writer.Writer.Cancel | proxy/clickhouse/writer.go:86-92 | After cancellation everything accepted is flushed or still in the queue. |
| Writer.SamplesConserved | proxy/clickhouse/writer.go:69-95 | The inserted sample rows, then those of the batch, then those of the queue are the rows of everything accepted, each once and in order. |
| Flush.BuildRows | proxy/clickhouse/writer.go:111-164 | The loop with its set of seen keys builds all sample rows in order, and one series row for the first series of each fingerprint and metric name. |
| Flush.RowLiesAtItsHour | proxy/clickhouse/writer.go:124-134 | Every series row is that of the first series of its fingerprint and metric name, and lies at the hour of its first sample, or of the clock if it has none; negative times are cut toward zero. |
| Flush.DedupKeyInjective | proxy/clickhouse/writer.go:136-139 | The deduplication key determines the fingerprint and the metric name, whatever characters the name holds. |
| Flush.SampleHasSeries | proxy/clickhouse/writer.go:111-164 | Every sample row has exactly one series row with its fingerprint and metric name in the same flush. |
| Flush.SampleHasItsLabels | proxy/clickhouse/writer.go:111-164 | When the fingerprint tells the label sets of the batch apart, that series row carries the labels the sample came with. |

## Left out

- 64-bit wrap-around of timestamps and counters, IEEE rounding, NaN and infinities as sample
  values: integers and reals are unbounded and exact. Logarithms and roots of numbers outside
  their domain, which are NaN in the program, are some number of the library here.
- The PromQL parser and the regular expressions of matchers: syntax trees are a datatype,
  and what a regular expression accepts is a parameter.
- A selector that lets several metrics through: labels do not hold the name, so series of two
  metrics with the same labels are one in what it means.
- Trigonometry.SafeChainsAgree: is one way for chains with rounding, roots, powers and
  logarithms after a trigonometric step, or with more than that step in front.
- MathLimits.TradingChainIsCorrect: is one way, and `MathUnderAggregation` is about
  selectors: a range function may restrict its values, so that for instance `max(abs(rate(x)))`
  is right as well.
- InstantEval.ApplyAggChain: does not model `topk`, `bottomk`, `quantile`, `count_values`,
  `limitk` and `limit_ratio`; the quantile computation itself is modelled.
- InstantEval.ApplyMathChain: does not model the order of a vector, which sorting steps
  change, nor `sort_by_label`; vectors are compared as maps.
- RangeQuery.ApplyMathChainMatrix: does not model the order of the series after sorting
  steps, for the same reason.
- InstantEval.EvalInstant: does not model `absent`, `absent_over_time`, `scalar`,
  `histogram_quantile`, `label_replace` and `label_join` as plan functions; the histogram
  computation itself is modelled.
- Translator.Transpile: refuses those functions and `time`, which the program translates;
  the arity and type checks of the parser are not part of this model.
- Translator.TranspileCall: refuses the same functions; bounds of clamp functions that are
  not number literals are an error here, where the program dereferences nil.
- Translator.TranspileBinaryExpr: does not model cardinalities and included labels.
- Translator.SQLPlan.OverwriteAggregation: does not model the other single-level fields,
  which are not read once the aggregation chain is set, nor the text kept for display; no
  modelled aggregation has a parameter of its own.
- BinaryJoin.VectorBinaryOp: does not model many-to-one and one-to-many joins, whose output
  labels need not be distinct.
- PlanEval.Evaluate: evaluates the two sides one after the other, where the program uses two
  goroutines and may be cancelled; a query of a single step, which the program evaluates as
  a vector, is a one-column matrix here; literals are one-sample matrices; `time()` and
  materialised-view tiers are not modelled.
- Preservation.TranslationPreservesMeaning: does not speak of expressions of numbers only,
  such as `vector(1) + 2`; what becomes of those is `NumbersAreFolded`.
- Constants.NumbersAreFolded: does not say what division by zero, `%`, `^` and `atan2` give,
  which the math library decides.
- The OTel schema, and all SQL text except the row predicate of the fetch and the per-bucket
  counter total; a sample in two adjacent tier segments because `BETWEEN` includes both ends.
- RangeQuery.BuildMatrix: the aliasing of slices between input and output matrices is not
  modelled; matrices and vectors are values that the loops rebuild.
- GaugeBuckets.GaugeRefinesRaw: is about the windowed form, which nothing in the repository
  calls; `GaugeToMatrix` and `RowRefinesRaw` are about the form in use.
- Singleflight.NoDeadlock: says that somebody can act, not that everybody is eventually
  scheduled; panics inside the computed function are not modelled.
- Cache.ResultCache.Get: the clock is a parameter of each call; the mutex is implicit in the
  atomicity of the step machine. The key of a query (a hash) is any integer.
- Writer.Writer.FlushBatch: a failed insert is logged and its rows are lost in the program;
  the theorems are about what is handed to the insert.
- The proxy's own grouping key, its aggregation of matrices, and the HTTP, pool, middleware,
  configuration-loading and backfill code, which have no comparable property.
