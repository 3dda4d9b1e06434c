# Metric attribution service: a verified model

This project models the core of a metric-attribution service, written in Java. A user configures an *attribution tree*: a metric at the root, sub-metrics below it, and for every inner node the operation (ADD, SUB, MUL, DIV) that combines its children. The user then creates an *analysis task* that compares two days at a time granularity. The task is run asynchronously:

1. the tree configuration is loaded;
2. the single-day value of every metric named in the tree is fetched for both days;
3. the node engine computes each node's baseline value, compare value, delta and delta rate;
4. every node with configured dimensions and a non-zero delta is attributed dimension by dimension with the Adtributor algorithm (explanatory power, surprise, threshold-driven selection);
5. the result tree is persisted and the task's status, progress and message are updated at four checkpoints (5, 30, 60, 90) and at the end (SUCCESS with 100, or FAILED with 0 and a message cut to 200 characters).

The model also covers:
- the validation of the create-task request record;
- the case-insensitive enum parsing of granularities;
- the filter-condition builders and field extraction;
- the helpers of the YAML-to-SQL tree generator.

## Modules

| file | module | models |
|---|---|---|
| wrappers.dfy | Wrappers | Option and Result |
| java_strings.dfy | JavaStrings | isBlank, StringUtils.isEmpty, ASCII case mapping, StringUtils.left |
| decimal_digits.dfy | DecimalDigits | digit strings and their values |
| sums.dfy | Sums | left-to-right sums and products of decimals; the laws of a logarithm |
| metric_tree.dfy | MetricTree | MetricTreeNodeDTO |
| node_engine.dfy, node_engine_lemmas.dfy | NodeMetricEngine, NodeMetricEngineLemmas | NodeMetricComputationEngine |
| adtributor.dfy, adtributor_lemmas.dfy | Adtributor, AdtributorLemmas | AdtributorCalculator and DimensionAttributionEngine.analyze |
| metric_rows.dfy | MetricRows | toBigDecimal and the row folds of queryMetricValue and queryDimensionValues |
| enum_parse.dfy | EnumParse | EnumStringParseAble.parse over DateGranularity |
| create_task_request.dfy | CreateTaskRequestValidation | the CreateTaskRequest compact constructor |
| task_dates.dfy | TaskDates | LocalDate.parse and format with the pattern yyyy-MM-dd |
| filter_condition.dfy | FilterConditions | FilterCondition |
| tree_insert_sql.dfy | TreeInsertSql | the helpers of TreeInsertSqlGenerator |
| attribution_results.dfy | AttributionResults | metric-value fetching, dimension attribution per node, contributions, assembly of the result tree |
| attribution_service.dfy | AttributionService | createTask, runAttributionTask, persistResult and the task status updates, over the task, tree and result tables |

### Modelling choices

**Numbers**
- BigDecimal values are exact `real`s.
- `Math.log` and `log10` are function parameters. The lemmas that depend on them require `IsLog`: the function must turn products of positive numbers into sums.

**Ordered collections and external calls**
- A Java map whose iteration order matters (the Adtributor inputs, `and(Map)`, YAML maps) is a sequence of entries with distinct keys.
- The iteration order of the metric-id HashSet is a parameter `order`.
- The metric service is a function from a request to its rows.
- The clock is a function `clock: nat -> Instant` of the checkpoint index.

**Persistence and tasks**
- The DAOs are map fields of the service class, keyed by task or tree id.
- A ghost log `taskWrites` records every task row written, in order. This is how the progress history of a run is stated.
- The tree configuration is stored already parsed: `Parsed(root)` or `Malformed`.
- `AnalysisTask` is a class with the table's columns as fields, because the run updates it in place between checkpoints.

**The run's control flow**
The run is specified by the functions `Attribute`, `AttributeTree`, `AttributeValues` and `AttributeComputation`. For a task they give:
- how many checkpoints are reached;
- whether the run completes, and with which result tree;
- otherwise, the message of the exception that aborts it.

`RunAttributionTask` is proved to write exactly the `History` of that outcome and to upsert the result only on completion.

## Model

| member | source | states |
|---|---|---|
| NodeMetricEngine.ParseOperation | src/main/java/cn/webank/dosconfig/enums/OperationType.java:6-26 | a node's op: null means ADD; otherwise the upper-cased text must name a constant exactly, else NoEnumConstant of the upper-cased text |
| NodeMetricEngine.DivideAggregate | src/main/java/cn/webank/dosconfig/service/attribution/NodeMetricComputationEngine.java:157-166 | fewer than two children give 0; a denominator below epsilon in magnitude gives 0; otherwise the result times the second child's value is the first child's value |
| NodeMetricEngine.AggregateSubtract | src/main/java/cn/webank/dosconfig/service/attribution/NodeMetricComputationEngine.java:126-136 | the loop computes the first child's value minus all the others (0 without children) |
| NodeMetricEngine.AggregateMultiply | src/main/java/cn/webank/dosconfig/service/attribution/NodeMetricComputationEngine.java:142-152 | the loop computes the product of the children's values (0 without children) |
| NodeMetricEngine.Sanitize | src/main/java/cn/webank/dosconfig/service/attribution/NodeMetricComputationEngine.java:229-234 | positive values are kept; zero and negative values become epsilon, so the result is positive |
| NodeMetricEngine.LogMean | src/main/java/cn/webank/dosconfig/service/attribution/NodeMetricComputationEngine.java:247-259 | equal arguments give the argument; a log difference below epsilon gives 0 |
| NodeMetricEngine.LogMeanInverse | src/main/java/cn/webank/dosconfig/service/attribution/NodeMetricComputationEngine.java:247-259 | otherwise the log mean times the log difference of the sanitized values is their difference |
| NodeMetricEngine.SubtractionDelta | src/main/java/cn/webank/dosconfig/service/attribution/NodeMetricComputationEngine.java:276-292 | the loop computes the first child's change minus the other children's changes (compare minus baseline without children) |
| NodeMetricEngine.LmdiDelta | src/main/java/cn/webank/dosconfig/service/attribution/NodeMetricComputationEngine.java:294-315 | the loop computes the log mean times the sum of the children's log changes; without children or with equal values it is the plain difference |
| NodeMetricEngine.DeltaRate | src/main/java/cn/webank/dosconfig/service/attribution/NodeMetricComputationEngine.java:98-101 | 0 when the denominator max(abs(baseline), epsilon) is 0 |
| NodeMetricEngine.DeltaRateInverse | src/main/java/cn/webank/dosconfig/service/attribution/NodeMetricComputationEngine.java:98-101 | otherwise the rate times max(abs(baseline), epsilon) is the delta |
| NodeMetricEngine.ComputeChildren | src/main/java/cn/webank/dosconfig/service/attribution/NodeMetricComputationEngine.java:65-70 | on success, one computation per child node |
| NodeMetricEngine.ChildrenErrorPropagates | src/main/java/cn/webank/dosconfig/service/attribution/NodeMetricComputationEngine.java:66-69 | the first failing child aborts the whole computation with its error |
| NodeMetricEngine.ComputeNode | src/main/java/cn/webank/dosconfig/service/attribution/NodeMetricComputationEngine.java:64-104 | the recursive method computes exactly the specification function `Compute` |
| NodeMetricEngine.CombineNode | src/main/java/cn/webank/dosconfig/service/attribution/NodeMetricComputationEngine.java:72-104 | one node from its computed children: a leaf's fetched values or the operation's aggregate, the operation's delta and the delta rate, as `Combine` specifies |
| NodeMetricEngine.SumLogChanges | src/main/java/cn/webank/dosconfig/service/attribution/NodeMetricComputationEngine.java:303-311 | the loop's total is the sum of the children's log changes ln(compare) - ln(baseline) of the sanitised values |
| NodeMetricEngineLemmas.ComputeMirrors | src/main/java/cn/webank/dosconfig/service/attribution/NodeMetricComputationEngine.java:64-104 | a computed node carries the tree node, and its children mirror the node's children one for one |
| NodeMetricEngineLemmas.ChildrenMirror | src/main/java/cn/webank/dosconfig/service/attribution/NodeMetricComputationEngine.java:65-70 | children computations mirror the child nodes one for one |
| NodeMetricEngineLemmas.ComputeSucceedsIff | src/main/java/cn/webank/dosconfig/service/attribution/NodeMetricComputationEngine.java:76-91 | the computation succeeds exactly when every leaf has a metric value and every inner node's op parses |
| NodeMetricEngineLemmas.ChildrenSucceedIff | src/main/java/cn/webank/dosconfig/service/attribution/NodeMetricComputationEngine.java:65-70 | the children succeed exactly when each child is computable |
| NodeMetricEngineLemmas.ChildrenSnoc | src/main/java/cn/webank/dosconfig/service/attribution/NodeMetricComputationEngine.java:67-69 | computing one more child appends its computation |
| NodeMetricEngineLemmas.LeafTakesItsMetricValue | src/main/java/cn/webank/dosconfig/service/attribution/NodeMetricComputationEngine.java:76-83 | a leaf without a metric value fails with MissingMetricValue; otherwise it takes the stored values with delta compare minus baseline and no children |
| NodeMetricEngineLemmas.CombinatorAggregatesChildren | src/main/java/cn/webank/dosconfig/service/attribution/NodeMetricComputationEngine.java:85-96 | an inner node's values are the aggregate of its children under its op, and its delta comes from that op's delta strategy |
| NodeMetricEngineLemmas.AdditiveDeltaIsDifference | src/main/java/cn/webank/dosconfig/service/attribution/NodeMetricComputationEngine.java:267-292 | for ADD and SUB nodes the delta is compare minus baseline |
| NodeMetricEngineLemmas.AddDeltaIsSumOfChildDeltas | src/main/java/cn/webank/dosconfig/service/attribution/NodeMetricComputationEngine.java:117-121 | an ADD node's delta is the sum of its children's changes, and the sum of their deltas when each child's delta is its change |
| NodeMetricEngineLemmas.LmdiDeltaIsSumOfContributions | src/main/java/cn/webank/dosconfig/service/attribution/NodeMetricComputationEngine.java:302-313 | the LMDI delta is the sum of the per-child contributions, log mean times log change |
| NodeMetricEngineLemmas.LogChangesOfPositive | src/main/java/cn/webank/dosconfig/service/attribution/NodeMetricComputationEngine.java:305-307 | with positive child values, the log changes are ln(compare) minus ln(baseline) child by child |
| NodeMetricEngineLemmas.LmdiExactOnProducts | src/main/java/cn/webank/dosconfig/service/attribution/NodeMetricComputationEngine.java:294-315 | for positive children whose products are the node's values, the LMDI delta is exactly compare minus baseline |
| NodeMetricEngineLemmas.LmdiFromLogRatio | src/main/java/cn/webank/dosconfig/service/attribution/NodeMetricComputationEngine.java:302-313 | when the log changes add up to the log ratio of the node's values, LMDI gives the plain difference |
| NodeMetricEngineLemmas.SumOfLogChanges | src/main/java/cn/webank/dosconfig/service/attribution/NodeMetricComputationEngine.java:303-308 | for positive children, the log changes add up to the log of the compare product minus the log of the baseline product |
| NodeMetricEngineLemmas.LogMeanTimesLogRatio | src/main/java/cn/webank/dosconfig/service/attribution/NodeMetricComputationEngine.java:247-259 | the log mean times the log ratio is the difference of the values |
| NodeMetricEngineLemmas.LmdiIsExact | src/main/java/cn/webank/dosconfig/service/attribution/NodeMetricComputationEngine.java:294-315 | a computed MUL node with positive children has delta compare minus baseline (LMDI is additive) |
| NodeMetricEngineLemmas.RatioDeltaIsSumOfContributions | src/main/java/cn/webank/dosconfig/service/attribution/NodeMetricComputationEngine.java:332-342 | the ratio delta is the numerator contribution plus the denominator contribution |
| NodeMetricEngineLemmas.RatioExactOnQuotients | src/main/java/cn/webank/dosconfig/service/attribution/NodeMetricComputationEngine.java:317-344 | with positive numerators and denominators of at least epsilon, the ratio delta of the quotients is exactly their difference |
| NodeMetricEngineLemmas.RatioIsExact | src/main/java/cn/webank/dosconfig/service/attribution/NodeMetricComputationEngine.java:317-344 | a computed DIV node with such children has delta compare minus baseline |
| NodeMetricEngineLemmas.DeltaRateOfZeroBaseline | src/main/java/cn/webank/dosconfig/service/attribution/NodeMetricComputationEngine.java:98-101 | a zero baseline divides the delta by epsilon |
| NodeMetricEngineLemmas.RevenueChildren | src/main/java/cn/webank/dosconfig/service/attribution/NodeMetricComputationEngine.java:65-70 | example tree price times volume: the children compute to the two leaf computations |
| NodeMetricEngineLemmas.PriceLeaf | src/main/java/cn/webank/dosconfig/service/attribution/NodeMetricComputationEngine.java:76-83 | example: the price leaf takes its stored values |
| NodeMetricEngineLemmas.VolumeLeaf | src/main/java/cn/webank/dosconfig/service/attribution/NodeMetricComputationEngine.java:76-83 | example: the volume leaf takes its stored values |
| NodeMetricEngineLemmas.RevenueProducts | src/main/java/cn/webank/dosconfig/service/attribution/NodeMetricComputationEngine.java:142-152 | example: the products are 1000 and 1080 |
| NodeMetricEngineLemmas.MulParses | src/main/java/cn/webank/dosconfig/service/attribution/NodeMetricComputationEngine.java:86-89 | the op text "mul" parses to MUL |
| NodeMetricEngineLemmas.RevenueScenario | src/main/java/cn/webank/dosconfig/service/attribution/NodeMetricComputationEngine.java:48-59 | example: revenue goes from 1000 to 1080, its delta is 80, and the LMDI contributions add up to 80 |
| Adtributor.Lookup | src/main/java/cn/webank/dosconfig/service/attribution/AdtributorCalculator.java:59 | a key is found exactly when it is among the entries' keys |
| Adtributor.LookupEntry | src/main/java/cn/webank/dosconfig/service/attribution/AdtributorCalculator.java:59 | with distinct keys, looking up an entry's key gives its value |
| Adtributor.SafeDivide | src/main/java/cn/webank/dosconfig/service/attribution/AdtributorCalculator.java:114-119 | a denominator below epsilon in magnitude gives 0; otherwise the result times the denominator is the numerator |
| Adtributor.Surprise | src/main/java/cn/webank/dosconfig/service/attribution/AdtributorCalculator.java:121-139 | every branch: 0 for a near-zero total or for two near-zero shares; the one-sided term 0.5·share·log10(2); for two shares, undefined (NaN) exactly when they have opposite signs |
| Adtributor.SharesOfOneSign | src/main/java/cn/webank/dosconfig/service/attribution/AdtributorCalculator.java:136 | both log arguments 2p/(p+q) and 2q/(p+q) are positive exactly when p and q have the same sign |
| Adtributor.CompareSide | src/main/java/cn/webank/dosconfig/service/attribution/AdtributorCalculator.java:55-64 | one observation per compare entry, in order, with the baseline value or 0 |
| Adtributor.MakeAll | src/main/java/cn/webank/dosconfig/service/attribution/AdtributorCalculator.java:55-78 | on success, one candidate per observation |
| Adtributor.MakeAllSpec | src/main/java/cn/webank/dosconfig/service/attribution/AdtributorCalculator.java:55-78 | all candidates succeed exactly when every surprise is finite; each candidate is made from its observation |
| Adtributor.InsertBySurprise | src/main/java/cn/webank/dosconfig/service/attribution/AdtributorCalculator.java:80 | inserting a candidate adds one element; that the order stays descending, the multiset grows by exactly the candidate and equal surprises keep arrival order is proved in `InsertSorted` and `InsertStable` |
| Adtributor.SortBySurprise | src/main/java/cn/webank/dosconfig/service/attribution/AdtributorCalculator.java:80 | the sort keeps the length; that it is a descending, stable permutation is proved in `SortIsSortedPermutation` and `SortIsStable` |
| Adtributor.Analyze | src/main/java/cn/webank/dosconfig/service/adtributor/DimensionAttributionEngine.java:41-54 | the engine passes its configured thresholds through to the calculation |
| Adtributor.MakeAllErrorPropagates | src/main/java/cn/webank/dosconfig/service/attribution/AdtributorCalculator.java:62 | a non-finite surprise anywhere fails the whole calculation |
| Adtributor.CompareCandidates | src/main/java/cn/webank/dosconfig/service/attribution/AdtributorCalculator.java:55-64 | the first loop builds exactly the candidates of the compare side |
| Adtributor.AppendBaselineOnly | src/main/java/cn/webank/dosconfig/service/attribution/AdtributorCalculator.java:67-78 | the second loop appends exactly the candidates of the keys only the baseline has |
| Adtributor.BuildCandidates | src/main/java/cn/webank/dosconfig/service/attribution/AdtributorCalculator.java:51-78 | both loops together build exactly `CandidatesOf` |
| Adtributor.SelectItems | src/main/java/cn/webank/dosconfig/service/attribution/AdtributorCalculator.java:82-104 | the selection loop computes exactly `Select` |
| Adtributor.CalculateItems | src/main/java/cn/webank/dosconfig/service/attribution/AdtributorCalculator.java:43-108 | the whole method computes exactly `Calculate` |
| Adtributor.BaselineOnlyPrefix | src/main/java/cn/webank/dosconfig/service/attribution/AdtributorCalculator.java:67-78 | the baseline-only observations of a prefix are a prefix of all of them |
| AdtributorLemmas.BaselineOnlySpec | src/main/java/cn/webank/dosconfig/service/attribution/AdtributorCalculator.java:67-78 | the baseline-only observations are exactly the baseline keys missing from compare, once each, with compare 0 and their baseline value |
| AdtributorLemmas.CompareSideSpec | src/main/java/cn/webank/dosconfig/service/attribution/AdtributorCalculator.java:55-64 | the compare-side observations are exactly the compare keys, once each, with their values and the baseline value or 0 |
| AdtributorLemmas.ObservationsSpec | src/main/java/cn/webank/dosconfig/service/attribution/AdtributorCalculator.java:55-78 | the candidates cover the union of both key sets, each key once, with the right compare and baseline values |
| AdtributorLemmas.SumInOut | src/main/java/cn/webank/dosconfig/service/attribution/AdtributorCalculator.java:111 | the baseline total splits into keys inside and outside a set |
| AdtributorLemmas.CompareSideBaselineSum | src/main/java/cn/webank/dosconfig/service/attribution/AdtributorCalculator.java:55-64 | the compare side carries the whole compare total and the baseline total of the shared keys |
| AdtributorLemmas.BaselineOnlySums | src/main/java/cn/webank/dosconfig/service/attribution/AdtributorCalculator.java:67-78 | the baseline-only side carries the rest of the baseline total and no compare value |
| AdtributorLemmas.DeltasAreDifferenceOfSums | src/main/java/cn/webank/dosconfig/service/attribution/AdtributorCalculator.java:53 | the deltas add up to the difference of the sums |
| AdtributorLemmas.ObservationDeltasSum | src/main/java/cn/webank/dosconfig/service/attribution/AdtributorCalculator.java:51-78 | the candidates' deltas add up to totalDelta = total baseline minus total compare |
| AdtributorLemmas.CandidatesMatchObservations | src/main/java/cn/webank/dosconfig/service/attribution/AdtributorCalculator.java:55-78 | each candidate carries its observation's values, delta = baseline minus compare, and ep = delta / totalDelta |
| AdtributorLemmas.CandidateDeltasSum | src/main/java/cn/webank/dosconfig/service/attribution/AdtributorCalculator.java:51-78 | the candidate deltas add up to totalDelta |
| AdtributorLemmas.FlatTotalGivesZeroEp | src/main/java/cn/webank/dosconfig/service/attribution/AdtributorCalculator.java:114-117 | when totalDelta is below epsilon, every explanatory power is 0 |
| AdtributorLemmas.EpsSumToOne | src/main/java/cn/webank/dosconfig/service/attribution/AdtributorCalculator.java:51-78 | otherwise the explanatory powers add up to exactly 1 |
| AdtributorLemmas.EpTimesTotal | src/main/java/cn/webank/dosconfig/service/attribution/AdtributorCalculator.java:118 | each ep times totalDelta is the candidate's delta |
| AdtributorLemmas.ShareOfTotal | src/main/java/cn/webank/dosconfig/service/attribution/AdtributorCalculator.java:61 | shares of a total that add up to the total add up to 1 |
| AdtributorLemmas.BaselineOnlyNeverFails | src/main/java/cn/webank/dosconfig/service/attribution/AdtributorCalculator.java:73-76 | a candidate with compare value 0 always has a finite surprise |
| AdtributorLemmas.SurpriseSymmetric | src/main/java/cn/webank/dosconfig/service/attribution/AdtributorCalculator.java:121-139 | surprise is symmetric in the two periods |
| AdtributorLemmas.SteadyShareIsNotSurprising | src/main/java/cn/webank/dosconfig/service/attribution/AdtributorCalculator.java:136 | an unchanged share has surprise 0 |
| AdtributorLemmas.InsertSorted | src/main/java/cn/webank/dosconfig/service/attribution/AdtributorCalculator.java:80 | inserting into a descending sequence keeps it descending and adds exactly the element |
| AdtributorLemmas.SortIsSortedPermutation | src/main/java/cn/webank/dosconfig/service/attribution/AdtributorCalculator.java:80 | the sort yields a permutation in descending surprise order |
| AdtributorLemmas.SortIsStable | src/main/java/cn/webank/dosconfig/service/attribution/AdtributorCalculator.java:80 | candidates of equal surprise keep their order (List.sort is stable) |
| AdtributorLemmas.InsertStable | src/main/java/cn/webank/dosconfig/service/attribution/AdtributorCalculator.java:80 | insertion keeps equal-surprise candidates in arrival order |
| AdtributorLemmas.SelectFromSpec | src/main/java/cn/webank/dosconfig/service/attribution/AdtributorCalculator.java:85-104 | the selection emits the qualifying candidates in order until the size or accumulated-ep limit, including the one that reaches it |
| AdtributorLemmas.QualifyingSorted | src/main/java/cn/webank/dosconfig/service/attribution/AdtributorCalculator.java:86-88 | the candidates with abs(ep) at least the threshold stay in descending order |
| AdtributorLemmas.SelectionProperties | src/main/java/cn/webank/dosconfig/service/attribution/AdtributorCalculator.java:82-104 | results are the leading qualifying candidates with ranks 1, 2, …; each abs(ep) meets the threshold; surprise descends; at most max(1, maxResultSize) items; the loop stops only at a limit |
| MetricRows.Get | src/main/java/cn/webank/dosconfig/service/attribution/AttributionServiceImpl.java:666 | row.get(key): present exactly when the row has the key, with its value |
| MetricRows.ToDecimal | src/main/java/cn/webank/dosconfig/service/attribution/AttributionServiceImpl.java:838-857 | null and blank text give 0; text that is not a decimal is an error naming it; numbers convert |
| MetricRows.RowValuesSpec | src/main/java/cn/webank/dosconfig/service/attribution/AttributionServiceImpl.java:665-667 | all rows convert exactly when each does; the values are in row order |
| MetricRows.QueryMetricValueAppend | src/main/java/cn/webank/dosconfig/service/attribution/AttributionServiceImpl.java:665-667 | the value of a concatenation of row lists is the sum of their values |
| MetricRows.RowValuesAppend | src/main/java/cn/webank/dosconfig/service/attribution/AttributionServiceImpl.java:665-666 | converting two row lists converts their concatenation |
| MetricRows.RowWithoutMetricAddsNothing | src/main/java/cn/webank/dosconfig/service/attribution/AttributionServiceImpl.java:666 | a row without the metric (or with null) adds nothing |
| MetricRows.MergeKeys | src/main/java/cn/webank/dosconfig/service/attribution/AttributionServiceImpl.java:690 | Map.merge adds the key |
| MetricRows.MergeKeepsDistinct | src/main/java/cn/webank/dosconfig/service/attribution/AttributionServiceImpl.java:690 | Map.merge keeps the keys distinct |
| MetricRows.MergeTotal | src/main/java/cn/webank/dosconfig/service/attribution/AttributionServiceImpl.java:690 | Map.merge raises the total by the merged value |
| MetricRows.MergeLookup | src/main/java/cn/webank/dosconfig/service/attribution/AttributionServiceImpl.java:690 | Map.merge adds to the merged key and leaves the other keys unchanged |
| MetricRows.Group | src/main/java/cn/webank/dosconfig/service/attribution/AttributionServiceImpl.java:686-691 | grouping yields distinct keys |
| MetricRows.GroupKeys | src/main/java/cn/webank/dosconfig/service/attribution/AttributionServiceImpl.java:686-691 | the grouped keys are exactly the row keys |
| MetricRows.GroupValues | src/main/java/cn/webank/dosconfig/service/attribution/AttributionServiceImpl.java:686-691 | each group holds the sum of its rows' values |
| MetricRows.GroupTotal | src/main/java/cn/webank/dosconfig/service/attribution/AttributionServiceImpl.java:686-691 | grouping keeps the total |
| MetricRows.AggregateRowsSpec | src/main/java/cn/webank/dosconfig/service/attribution/AttributionServiceImpl.java:686-693 | aggregation: distinct keys, exactly the rows' dimension values, per-key sums, and total = sum of all values |
| MetricRows.SameKeyRowsAreSummed | src/main/java/cn/webank/dosconfig/service/attribution/AttributionServiceImpl.java:690 | two rows with the same dimension value merge into one entry holding their sum |
| MetricRows.MissingDimensionIsUnknown | src/main/java/cn/webank/dosconfig/service/attribution/AttributionServiceImpl.java:688 | a missing dimension reads "UNKNOWN"; a null one reads "null" |
| MetricRows.AggregateByDimension | src/main/java/cn/webank/dosconfig/service/attribution/AttributionServiceImpl.java:686-693 | the loop computes exactly `AggregateRows` |
| MetricRows.RowValuesErrorPropagates | src/main/java/cn/webank/dosconfig/service/attribution/AttributionServiceImpl.java:689 | the first unparseable value aborts the aggregation |
| EnumParse.FirstMatch | src/main/java/cn/webank/dosconfig/enums/EnumStringParseAble.java:17-21 | the constant found matches the text ignoring case; none is found exactly when no constant matches |
| EnumParse.Parse | src/main/java/cn/webank/dosconfig/enums/EnumStringParseAble.java:13-23 | null gives null; otherwise the first constant whose name equals the text ignoring case |
| EnumParse.SameLetterUpper | src/main/java/cn/webank/dosconfig/enums/EnumStringParseAble.java:18 | equalsIgnoreCase against an upper-case letter fixes the other letter's upper case |
| EnumParse.AtMostOneMatch | src/main/java/cn/webank/dosconfig/enums/EnumStringParseAble.java:17-21 | at most one constant matches a text |
| EnumParse.ParseName | src/main/java/cn/webank/dosconfig/enums/DateGranularity.java:8-11 | each constant parses back from its name and from its lower-case dateGran |
| EnumParse.ParseWeek | src/main/java/cn/webank/dosconfig/enums/DateGranularity.java:9 | "week" and "WEEK" parse to WEEK |
| EnumParse.ParseUnknown | src/main/java/cn/webank/dosconfig/enums/EnumStringParseAble.java:22 | an unknown text gives null |
| CreateTaskRequestValidation.RequireNonBlank | src/main/java/cn/webank/dosconfig/entity/attribution/dto/request/CreateTaskRequest.java:36-40 | null or blank is rejected with the given message; otherwise accepted |
| CreateTaskRequestValidation.RequireDate | src/main/java/cn/webank/dosconfig/entity/attribution/dto/request/CreateTaskRequest.java:42-47 | blank is rejected with the given message; a text not of shape dddd-dd-dd with the format message; otherwise accepted |
| CreateTaskRequestValidation.Validate | src/main/java/cn/webank/dosconfig/entity/attribution/dto/request/CreateTaskRequest.java:23-34 | accepts exactly valid requests, unchanged; each failure is the first failing check, in the constructor's order, with its exception and message |
| CreateTaskRequestValidation.BaselineDateCheckedFirst | src/main/java/cn/webank/dosconfig/entity/attribution/dto/request/CreateTaskRequest.java:32-33 | both dates missing: the baseline message wins |
| CreateTaskRequestValidation.ThresholdBoundsAccepted | src/main/java/cn/webank/dosconfig/entity/attribution/dto/request/CreateTaskRequest.java:26 | thresholds 0 and 1 are inside the bounds |
| CreateTaskRequestValidation.ListIdUnconstrained | src/main/java/cn/webank/dosconfig/entity/attribution/dto/request/CreateTaskRequest.java:23-34 | listId does not affect validation |
| CreateTaskRequestValidation.FormattedDateMatches | src/main/java/cn/webank/dosconfig/entity/attribution/dto/request/CreateTaskRequest.java:21 | zero-padded year, month and day match the pattern and read back |
| CreateTaskRequestValidation.MatchingDateIsFormatted | src/main/java/cn/webank/dosconfig/entity/attribution/dto/request/CreateTaskRequest.java:21 | every text that matches the pattern is such a padded date |
| CreateTaskRequestValidation.DateShapeOnly | src/main/java/cn/webank/dosconfig/entity/attribution/dto/request/CreateTaskRequest.java:44 | the pattern checks shape only: "2024-13-45" passes |
| CreateTaskRequestValidation.UnpaddedDateRejected | src/main/java/cn/webank/dosconfig/entity/attribution/dto/request/CreateTaskRequest.java:44 | a date without zero padding, "2024-1-5", fails with the format message |
| TaskDates.MonthLengthRange | src/main/java/cn/webank/dosconfig/service/attribution/AttributionServiceImpl.java:258-259 | 28 to 31 days; February has 29 exactly in leap years |
| TaskDates.WrittenYear | src/main/java/cn/webank/dosconfig/service/attribution/AttributionServiceImpl.java:76 | the four-digit year field |
| TaskDates.ParseDate | src/main/java/cn/webank/dosconfig/service/attribution/AttributionServiceImpl.java:258-259 | on success a calendar date with the written year and month and a day no later than the written one |
| TaskDates.Format | src/main/java/cn/webank/dosconfig/service/attribution/AttributionServiceImpl.java:285-286 | formatting yields a pattern-shaped text whose fields are the date's |
| TaskDates.ParseFormat | src/main/java/cn/webank/dosconfig/service/attribution/AttributionServiceImpl.java:258-259 | parsing a formatted date gives it back |
| TaskDates.FormatParse | src/main/java/cn/webank/dosconfig/service/attribution/AttributionServiceImpl.java:258-259 | a parsed text formats back to itself exactly when its day exists in its month |
| TaskDates.LeapYearClamping | src/main/java/cn/webank/dosconfig/service/attribution/AttributionServiceImpl.java:258 | 2024-02-30 parses to 2024-02-29 |
| TaskDates.CommonYearClamping | src/main/java/cn/webank/dosconfig/service/attribution/AttributionServiceImpl.java:258 | 2023-02-29 parses to 2023-02-28 |
| TaskDates.CenturyIsCommonYear | src/main/java/cn/webank/dosconfig/service/attribution/AttributionServiceImpl.java:258 | 1900-02-29 parses to 1900-02-28 |
| TaskDates.FourHundredthYearIsLeap | src/main/java/cn/webank/dosconfig/service/attribution/AttributionServiceImpl.java:258 | 2000-02-29 is kept |
| TaskDates.ThirtyDayMonthClamping | src/main/java/cn/webank/dosconfig/service/attribution/AttributionServiceImpl.java:258 | 2024-04-31 parses to 2024-04-30 |
| TaskDates.MonthThirteenRejected | src/main/java/cn/webank/dosconfig/service/attribution/AttributionServiceImpl.java:258 | month 13 is rejected |
| TaskDates.DayThirtyTwoRejected | src/main/java/cn/webank/dosconfig/service/attribution/AttributionServiceImpl.java:258 | day 32 is rejected |
| TaskDates.YearZeroRejected | src/main/java/cn/webank/dosconfig/service/attribution/AttributionServiceImpl.java:258 | year 0 is rejected |
| FilterConditions.Operation | src/main/java/cn/webank/dosconfig/entity/FilterCondition.java:114-125 | an empty field is rejected; otherwise a field node with the field, op and value, and no relation or children |
| FilterConditions.Relation | src/main/java/cn/webank/dosconfig/entity/FilterCondition.java:133-139 | a relation node with the relation and the list, and no field or op |
| FilterConditions.And | src/main/java/cn/webank/dosconfig/entity/FilterCondition.java:133-139 | and(list) is the AND relation over the list |
| FilterConditions.Or | src/main/java/cn/webank/dosconfig/entity/FilterCondition.java:152-158 | or(list) is the OR relation over the list |
| FilterConditions.AndWith | src/main/java/cn/webank/dosconfig/entity/FilterCondition.java:127-131 | rejected exactly when the field is empty; otherwise AND over [operation, filter] |
| FilterConditions.EqNodes | src/main/java/cn/webank/dosconfig/entity/FilterCondition.java:145-147 | succeeds exactly when every key is non-empty; then one EQ node per entry, in order |
| FilterConditions.MapRelation | src/main/java/cn/webank/dosconfig/entity/FilterCondition.java:141-168 | the loop builds exactly the relation over the EQ nodes, or the field error |
| FilterConditions.EqNodesErrorPropagates | src/main/java/cn/webank/dosconfig/entity/FilterCondition.java:146 | an empty key anywhere rejects the map |
| FilterConditions.AllEmptyMeans | src/main/java/cn/webank/dosconfig/entity/FilterCondition.java:104-109 | all children are empty exactly when each is null or empty |
| FilterConditions.IsEmptySpec | src/main/java/cn/webank/dosconfig/entity/FilterCondition.java:97-112 | a relation is empty exactly when its list is null, or every child is null or empty; any other node is empty exactly when its field is empty |
| FilterConditions.Distinct | src/main/java/cn/webank/dosconfig/entity/FilterCondition.java:188 | distinct() keeps every element, once each |
| FilterConditions.OwnField | src/main/java/cn/webank/dosconfig/entity/FilterCondition.java:181-183 | a node contributes its field exactly when the field is non-empty |
| FilterConditions.GetFields | src/main/java/cn/webank/dosconfig/entity/FilterCondition.java:178-189 | the fields are listed without duplicates |
| FilterConditions.GetFieldsSpec | src/main/java/cn/webank/dosconfig/entity/FilterCondition.java:178-189 | getFields lists exactly the non-empty fields anywhere in the tree |
| FilterConditions.ChildFieldsSpec | src/main/java/cn/webank/dosconfig/entity/FilterCondition.java:184-186 | the children's fields are exactly those in their subtrees |
| FilterConditions.CollectFilterFields | src/main/java/cn/webank/dosconfig/entity/FilterCondition.java:199-209 | getFilterFields appends exactly `FilterFields` to the list, or throws |
| FilterConditions.ParseRelation | src/main/java/cn/webank/dosconfig/entity/FilterCondition.java:211-221 | parseRelation appends the fields of the non-empty children in order; a null child throws a NullPointerException |
| FilterConditions.ParseFilters | src/main/java/cn/webank/dosconfig/entity/FilterCondition.java:191-197 | parseFilters computes exactly `FilterFields` |
| FilterConditions.FilterFieldsWithinFieldSet | src/main/java/cn/webank/dosconfig/entity/FilterCondition.java:199-209 | the parsed fields are fields of the tree |
| FilterConditions.RelationFieldsWithin | src/main/java/cn/webank/dosconfig/entity/FilterCondition.java:211-221 | the children's parsed fields are fields of the children |
| FilterConditions.ParsedFieldsAreFields | src/main/java/cn/webank/dosconfig/entity/FilterCondition.java:178-209 | every field parseFilters returns is one getFields returns |
| FilterConditions.EmptyParsesToNothing | src/main/java/cn/webank/dosconfig/entity/FilterCondition.java:200-202 | an empty condition yields no field |
| FilterConditions.UnknownNodeTypeIsSkipped | src/main/java/cn/webank/dosconfig/entity/FilterCondition.java:203-208 | a node of unknown type is skipped by parseFilters but counted by getFields |
| FilterConditions.DistinctSingle | src/main/java/cn/webank/dosconfig/entity/FilterCondition.java:188 | a single field is its own distinct list |
| FilterConditions.FieldNodeTypeIgnoresCase | src/main/java/cn/webank/dosconfig/entity/FilterCondition.java:206 | node type "FIELD" is a field node |
| FilterConditions.OperationFields | src/main/java/cn/webank/dosconfig/entity/FilterCondition.java:114-125 | operation(field) yields [field] under both extractions |
| FilterConditions.AndWithFields | src/main/java/cn/webank/dosconfig/entity/FilterCondition.java:127-131 | and(field, op, value, filter) parses to field followed by the filter's fields |
| FilterConditions.AndWithNullFilterThrows | src/main/java/cn/webank/dosconfig/entity/FilterCondition.java:217 | and(field, op, value, null) builds a condition that parseFilters cannot parse (NullPointerException) |
| FilterConditions.EqNodesFields | src/main/java/cn/webank/dosconfig/entity/FilterCondition.java:141-150 | the EQ nodes parse to the keys in order |
| FilterConditions.RelationFieldsAppend | src/main/java/cn/webank/dosconfig/entity/FilterCondition.java:216-220 | one more non-empty child appends its fields |
| FilterConditions.AndMapFields | src/main/java/cn/webank/dosconfig/entity/FilterCondition.java:141-150 | and(map) parses to the map's keys in order |
| JavaStrings.ToUpperChar | src/main/java/cn/webank/dosconfig/service/attribution/NodeMetricComputationEngine.java:87 | ASCII upper-casing of a character |
| JavaStrings.ToLowerChar | src/main/java/cn/webank/dosconfig/enums/EnumStringParseAble.java:18 | ASCII lower-casing of a character |
| JavaStrings.ToUpper | src/main/java/cn/webank/dosconfig/service/attribution/NodeMetricComputationEngine.java:87 | upper-casing character by character, same length |
| JavaStrings.Left | src/main/java/cn/webank/dosconfig/service/attribution/AttributionServiceImpl.java:752 | StringUtils.left: null stays null; otherwise the first min(n, length) characters, a prefix |
| TreeInsertSql.IntText | src/main/java/cn/webank/dosconfig/util/TreeInsertSqlGenerator.java:124 | the decimal text of an integer is non-empty |
| TreeInsertSql.Get | src/main/java/cn/webank/dosconfig/util/TreeInsertSqlGenerator.java:105 | a non-null lookup finds an entry with that key |
| TreeInsertSql.Escape | src/main/java/cn/webank/dosconfig/util/TreeInsertSqlGenerator.java:142 | quote doubling never shortens |
| TreeInsertSql.EscapeSql | src/main/java/cn/webank/dosconfig/util/TreeInsertSqlGenerator.java:138-143 | null gives ""; otherwise every quote is doubled |
| TreeInsertSql.EscapeRoundTrip | src/main/java/cn/webank/dosconfig/util/TreeInsertSqlGenerator.java:142 | undoubling the quotes of an escaped text gives it back, and quotes come in pairs |
| TreeInsertSql.EscapeWithoutQuotes | src/main/java/cn/webank/dosconfig/util/TreeInsertSqlGenerator.java:142 | a text without quotes is unchanged |
| TreeInsertSql.ReadText | src/main/java/cn/webank/dosconfig/util/TreeInsertSqlGenerator.java:97-116 | a null node gives null; otherwise the first key with a usable value (non-blank text, or a non-map scalar with non-blank text); never blank |
| TreeInsertSql.SkipFirst | src/main/java/cn/webank/dosconfig/util/TreeInsertSqlGenerator.java:101-104 | a blank key or unusable value moves on to the next key |
| TreeInsertSql.DefaultIfBlank | src/main/java/cn/webank/dosconfig/util/TreeInsertSqlGenerator.java:130-132 | blank gives the default; anything else is kept |
| TreeInsertSql.IntValue | src/main/java/cn/webank/dosconfig/util/TreeInsertSqlGenerator.java:121 | Number.intValue: the value modulo 2^32 in the int range, unchanged when already in range |
| TreeInsertSql.Truncate | src/main/java/cn/webank/dosconfig/util/TreeInsertSqlGenerator.java:121 | rounding toward zero: the integer part of a positive or negative real |
| TreeInsertSql.DoubleIntValue | src/main/java/cn/webank/dosconfig/util/TreeInsertSqlGenerator.java:120-121 | Double.intValue: NaN gives 0, infinities and out-of-range values saturate at the int bounds, anything else is truncated toward zero |
| TreeInsertSql.ParseInt | src/main/java/cn/webank/dosconfig/util/TreeInsertSqlGenerator.java:124 | Integer.parseInt succeeds only inside the int range |
| TreeInsertSql.ParseIntText | src/main/java/cn/webank/dosconfig/util/TreeInsertSqlGenerator.java:124 | parsing an int's text gives it back |
| TreeInsertSql.ReadInt | src/main/java/cn/webank/dosconfig/util/TreeInsertSqlGenerator.java:118-128 | missing or null gives the default; a whole number gives its 32-bit intValue; a floating-point number gives Double.intValue; anything else parses its text or falls back to the default |
| TreeInsertSql.CollectionsReadAsDefault | src/main/java/cn/webank/dosconfig/util/TreeInsertSqlGenerator.java:124-126 | a map or list value gives the default |
| TreeInsertSql.FloatVersionTruncates | src/main/java/cn/webank/dosconfig/util/TreeInsertSqlGenerator.java:56 | a float version 2.9 reads as 2, -2.9 as -2, NaN as 0 and 1.0E10 as the int maximum, whatever the default |
| TreeInsertSql.VersionAsText | src/main/java/cn/webank/dosconfig/util/TreeInsertSqlGenerator.java:56 | a version written as text reads as its number |
| TreeInsertSql.NormalizeRoot | src/main/java/cn/webank/dosconfig/util/TreeInsertSqlGenerator.java:177-190 | a map is returned as is; a list yields its first element that contains a map; found exactly when a map is present |
| TreeInsertSql.FirstNormalized | src/main/java/cn/webank/dosconfig/util/TreeInsertSqlGenerator.java:181-188 | a list yields a map exactly when some element contains one |
| TreeInsertSql.FirstNormalizedIsFirst | src/main/java/cn/webank/dosconfig/util/TreeInsertSqlGenerator.java:182-186 | the result comes from the first element containing a map |
| TreeInsertSql.RootCandidate | src/main/java/cn/webank/dosconfig/util/TreeInsertSqlGenerator.java:166-173 | root, else treeConfig, else the document itself when it has a nodeId |
| TreeInsertSql.ResolveRootNode | src/main/java/cn/webank/dosconfig/util/TreeInsertSqlGenerator.java:166-175 | a root is found exactly when the candidate contains a map, and it is a map |
| TreeInsertSql.ScalarRootHidesTreeConfig | src/main/java/cn/webank/dosconfig/util/TreeInsertSqlGenerator.java:167-170 | a scalar root hides treeConfig, so no root is found |
| TreeInsertSql.RootKeyWins | src/main/java/cn/webank/dosconfig/util/TreeInsertSqlGenerator.java:167 | a map under root is the root |
| TreeInsertSql.DocumentAsRoot | src/main/java/cn/webank/dosconfig/util/TreeInsertSqlGenerator.java:171-173 | without root and treeConfig, a document with nodeId is its own root |
| TreeInsertSql.AsMap | src/main/java/cn/webank/dosconfig/util/TreeInsertSqlGenerator.java:153-164 | only maps convert |
| TreeInsertSql.ReadHeader | src/main/java/cn/webank/dosconfig/util/TreeInsertSqlGenerator.java:54-66 | the missing-root error exactly when no root is found; otherwise treeId; treeName, or treeId when the name is blank; version = readInt(version, 1); metricId and metricName from the document, else from the root node (nodeName, then metricName) |
| TreeInsertSql.MetricIdFromRoot | src/main/java/cn/webank/dosconfig/util/TreeInsertSqlGenerator.java:63-66 | a blank metricId is read from the root node |
| AttributionResults.DimensionThresholds | src/main/java/cn/webank/dosconfig/service/attribution/AttributionServiceImpl.java:125-132 | the dimension engine gets epsilon, max result size and both ep thresholds from the configuration |
| AttributionResults.RunErrorMessage | src/main/java/cn/webank/dosconfig/service/attribution/AttributionServiceImpl.java:444-447 | every failure has a message except the NullPointerException of a null metricId |
| AttributionResults.TimeDimensionField | src/main/java/cn/webank/dosconfig/service/attribution/AttributionServiceImpl.java:721-723 | the mapped calendar column, else the daily column |
| AttributionResults.YearUsesDailyField | src/main/java/cn/webank/dosconfig/service/attribution/AttributionServiceImpl.java:79-83 | YEAR falls back to the daily column; DAY, WEEK and MONTH columns differ |
| AttributionResults.SingleDateRequest | src/main/java/cn/webank/dosconfig/service/attribution/AttributionServiceImpl.java:696-719 | one metric, the given dimensions, sort and limit, and one time dimension whose range is [day, day] |
| AttributionResults.RequestNamesTheDay | src/main/java/cn/webank/dosconfig/service/attribution/AttributionServiceImpl.java:711-719 | the range's day parses back to the date and both ends agree |
| AttributionResults.ComputeContribution | src/main/java/cn/webank/dosconfig/service/attribution/AttributionServiceImpl.java:564-569 | a total below epsilon in magnitude gives 0; otherwise the result times abs(total) is the node delta |
| AttributionResults.ContributionKeepsSign | src/main/java/cn/webank/dosconfig/service/attribution/AttributionServiceImpl.java:568 | a contribution has the sign of the node delta |
| AttributionResults.OwnContribution | src/main/java/cn/webank/dosconfig/service/attribution/AttributionServiceImpl.java:492-493 | a node's contribution to itself is 0, 1 or -1 |
| AttributionResults.ContributionsOfSum | src/main/java/cn/webank/dosconfig/service/attribution/AttributionServiceImpl.java:568 | contributions are additive in the node delta |
| AttributionResults.CollectMetricIdsSpec | src/main/java/cn/webank/dosconfig/service/attribution/AttributionServiceImpl.java:642-653 | an id is collected exactly when some node in the tree names it and it is not blank |
| AttributionResults.ChildMetricIdsSpec | src/main/java/cn/webank/dosconfig/service/attribution/AttributionServiceImpl.java:647-651 | the children's ids are exactly the non-blank ids named in their subtrees |
| AttributionResults.UnvaluedLeafFails | src/main/java/cn/webank/dosconfig/service/attribution/NodeMetricComputationEngine.java:76-80 | a leaf anywhere without a value fails the computation |
| AttributionResults.BlankLeafFails | src/main/java/cn/webank/dosconfig/service/attribution/AttributionServiceImpl.java:644 | a leaf with a blank or null metricId is never fetched, so the computation fails |
| AttributionResults.FetchAllSucceedsIff | src/main/java/cn/webank/dosconfig/service/attribution/AttributionServiceImpl.java:633-637 | fetching succeeds exactly when every single fetch does |
| AttributionResults.FetchAllMap | src/main/java/cn/webank/dosconfig/service/attribution/AttributionServiceImpl.java:633-637 | the map's keys are exactly the fetched ids, each with its fetched value |
| AttributionResults.FetchStep | src/main/java/cn/webank/dosconfig/service/attribution/AttributionServiceImpl.java:633-637 | one more id puts its value in the map |
| AttributionResults.FetchFails | src/main/java/cn/webank/dosconfig/service/attribution/AttributionServiceImpl.java:634-635 | a failing fetch aborts with its error |
| AttributionResults.FetchErrorPropagates | src/main/java/cn/webank/dosconfig/service/attribution/AttributionServiceImpl.java:633-637 | an error in a prefix is the error of the whole |
| AttributionResults.BuildMetricValueMap | src/main/java/cn/webank/dosconfig/service/attribution/AttributionServiceImpl.java:627-640 | the loop fetches exactly the specified map over the ids in set order |
| AttributionResults.MetricValueMapKeys | src/main/java/cn/webank/dosconfig/service/attribution/AttributionServiceImpl.java:627-640 | the keys are exactly the tree's metric ids, each with its baseline and compare value |
| AttributionResults.FetchOrderIrrelevant | src/main/java/cn/webank/dosconfig/service/attribution/AttributionServiceImpl.java:631-633 | the HashSet iteration order does not change the result |
| AttributionResults.FetchAllOrderIrrelevant | src/main/java/cn/webank/dosconfig/service/attribution/AttributionServiceImpl.java:633-637 | any two orders of the same ids give the same map |
| AttributionResults.QueryDimensionValues | src/main/java/cn/webank/dosconfig/service/attribution/AttributionServiceImpl.java:672-694 | the method computes the dimension aggregation of the queried rows |
| AttributionResults.DimensionAttribution | src/main/java/cn/webank/dosconfig/service/attribution/AttributionServiceImpl.java:531-553 | one dimension of a node: both days' dimension values are queried and analysed, as `DimensionItems` specifies; a null metricId or a failing query or analysis is an error |
| AttributionResults.DimensionStep | src/main/java/cn/webank/dosconfig/service/attribution/AttributionServiceImpl.java:531-560 | one more dimension appends its items |
| AttributionResults.DimensionFails | src/main/java/cn/webank/dosconfig/service/attribution/AttributionServiceImpl.java:531-560 | a failing dimension aborts with its error |
| AttributionResults.DimensionErrorPropagates | src/main/java/cn/webank/dosconfig/service/attribution/AttributionServiceImpl.java:531-560 | an error in a prefix is the error of the whole |
| AttributionResults.BuildDimensionAttributionForNode | src/main/java/cn/webank/dosconfig/service/attribution/AttributionServiceImpl.java:515-562 | no dimensions or a zero delta give no items; otherwise the items of each dimension, concatenated in order |
| AttributionResults.SelectedItemsNamed | src/main/java/cn/webank/dosconfig/service/attribution/AdtributorCalculator.java:91-92 | every item names its dimension |
| AttributionResults.DimensionItemsNamed | src/main/java/cn/webank/dosconfig/service/attribution/AttributionServiceImpl.java:549-553 | a dimension's items all name that dimension |
| AttributionResults.AllDimensionItemsNamed | src/main/java/cn/webank/dosconfig/service/attribution/AttributionServiceImpl.java:531-560 | every item names one of the node's dimensions; items exist only when the metricId is set |
| AttributionResults.NodeItemsNamed | src/main/java/cn/webank/dosconfig/service/attribution/AttributionServiceImpl.java:520-561 | items exist only for nodes with dimensions, a non-zero delta and a metricId, and each names one of the node's dimensions |
| AttributionResults.NullMetricIdFails | src/main/java/cn/webank/dosconfig/service/attribution/AttributionServiceImpl.java:534-540 | a null metricId with dimensions and a non-zero delta fails with a NullPointerException |
| AttributionResults.AssembleChildren | src/main/java/cn/webank/dosconfig/service/attribution/AttributionServiceImpl.java:480-482 | one result per child computation |
| AttributionResults.AssembleMirrors | src/main/java/cn/webank/dosconfig/service/attribution/AttributionServiceImpl.java:473-510 | each result node copies its computation, has local contribution against the parent delta and global against the root delta, and carries the node's dimension items |
| AttributionResults.ChildrenMirror | src/main/java/cn/webank/dosconfig/service/attribution/AttributionServiceImpl.java:480-482 | the same for every child, in order |
| AttributionResults.AssembleSucceedsIff | src/main/java/cn/webank/dosconfig/service/attribution/AttributionServiceImpl.java:473-510 | assembly succeeds exactly when every node's dimension attribution does |
| AttributionResults.ChildrenSucceedIff | src/main/java/cn/webank/dosconfig/service/attribution/AttributionServiceImpl.java:480-482 | children succeed exactly when each child is attributable |
| AttributionResults.RootContribution | src/main/java/cn/webank/dosconfig/service/attribution/AttributionServiceImpl.java:432-439 | at the root, local and global contribution coincide and are 0, 1 or -1 |
| AttributionResults.ChildSharesAddUp | src/main/java/cn/webank/dosconfig/service/attribution/AttributionServiceImpl.java:481-492 | when a node's delta is the sum of its children's deltas, their local contributions add up to the node's own |
| AttributionService.Attribute | src/main/java/cn/webank/dosconfig/service/attribution/AttributionServiceImpl.java:401-442 | the outcome of a run: at most four checkpoints; it completes exactly when all four are reached |
| AttributionService.AttributeTree | src/main/java/cn/webank/dosconfig/service/attribution/AttributionServiceImpl.java:412-442 | after the tree parses, at least one checkpoint is reached |
| AttributionService.AttributeValues | src/main/java/cn/webank/dosconfig/service/attribution/AttributionServiceImpl.java:420-442 | after the values are fetched, at least two are reached |
| AttributionService.AttributeComputation | src/main/java/cn/webank/dosconfig/service/attribution/AttributionServiceImpl.java:430-442 | after the tree is computed, at least three are reached |
| AttributionService.Marks | src/main/java/cn/webank/dosconfig/service/attribution/AttributionServiceImpl.java:412-440 | one row per checkpoint reached |
| AttributionService.History | src/main/java/cn/webank/dosconfig/service/attribution/AttributionServiceImpl.java:398-448 | the rows written in a run: one per checkpoint reached plus the final one |
| AttributionService.MarksSpec | src/main/java/cn/webank/dosconfig/service/attribution/AttributionServiceImpl.java:725-734 | each checkpoint row is RUNNING with that checkpoint's progress and message, the first start time, and the checkpoint's clock; nothing else changes |
| AttributionService.SuccessfulRun | src/main/java/cn/webank/dosconfig/service/attribution/AttributionServiceImpl.java:412-442 | a completed run writes progresses 5, 30, 60, 90, 100 and statuses RUNNING ×4 then SUCCESS, ending with the success message and an end time |
| AttributionService.FailedRun | src/main/java/cn/webank/dosconfig/service/attribution/AttributionServiceImpl.java:444-447 | a failed run writes the checkpoints reached then FAILED with progress 0, the message cut to at most 200 characters as a prefix, and an end time |
| AttributionService.RunKeepsTaskFields | src/main/java/cn/webank/dosconfig/service/attribution/AttributionServiceImpl.java:725-756 | every row a run writes keeps the loaded task's fixed fields: identity, tree, list, threshold, granularity, dates, creator and creation time |
| AttributionService.BlankLeafFailsRun | src/main/java/cn/webank/dosconfig/service/attribution/AttributionServiceImpl.java:423-430 | a tree with a blank-metric leaf fails at the computation, after two checkpoints |
| AttributionService.AnalysisTask.Load | src/main/java/cn/webank/dosconfig/service/attribution/AttributionServiceImpl.java:401 | a loaded task holds exactly the stored row |
| AttributionService.AnalysisTask.SetRunning | src/main/java/cn/webank/dosconfig/service/attribution/AttributionServiceImpl.java:725-730 | the object becomes RUNNING with the checkpoint's progress and message and the new update time; the start time is set only if unset |
| AttributionService.AnalysisTask.SetSucceeded | src/main/java/cn/webank/dosconfig/service/attribution/AttributionServiceImpl.java:737-741 | the object becomes SUCCESS with progress 100, the success message, and the end and update times |
| AttributionService.AnalysisTask.SetFailed | src/main/java/cn/webank/dosconfig/service/attribution/AttributionServiceImpl.java:749-753 | the object becomes FAILED with progress 0, the message cut to 200 characters, and the end and update times |
| AttributionService.AttributionServiceImpl.constructor | src/main/java/cn/webank/dosconfig/service/attribution/AttributionServiceImpl.java:86-119 | the service starts with empty task and result tables and the given trees |
| AttributionService.AttributionServiceImpl.UpdateByTaskId | src/main/java/cn/webank/dosconfig/service/attribution/AttributionServiceImpl.java:733 | the stored row is replaced by the task's row and logged; an unknown id changes nothing |
| AttributionService.AttributionServiceImpl.MarkTaskRunning | src/main/java/cn/webank/dosconfig/service/attribution/AttributionServiceImpl.java:725-734 | the task becomes RUNNING at the checkpoint, keeps its first start time, and is written back |
| AttributionService.AttributionServiceImpl.MarkTaskSuccess | src/main/java/cn/webank/dosconfig/service/attribution/AttributionServiceImpl.java:736-743 | the task becomes SUCCESS with progress 100 and an end time, and is written back |
| AttributionService.AttributionServiceImpl.MarkTaskFailed | src/main/java/cn/webank/dosconfig/service/attribution/AttributionServiceImpl.java:745-756 | reloads the task; if it exists, writes FAILED, progress 0, the cut message and an end time; otherwise does nothing |
| AttributionService.AttributionServiceImpl.PersistResult | src/main/java/cn/webank/dosconfig/service/attribution/AttributionServiceImpl.java:453-468 | inserts a result row, or overwrites the tree of the existing one and keeps its creation time |
| AttributionService.AttributionServiceImpl.CreateTask | src/main/java/cn/webank/dosconfig/service/attribution/AttributionServiceImpl.java:252-288 | unknown tree is TreeNotFound with its message; succeeds exactly when the tree exists and both dates parse; then inserts a PENDING row and returns the formatted dates; on error no task is stored |
| AttributionService.AttributionServiceImpl.Advance | src/main/java/cn/webank/dosconfig/service/attribution/AttributionServiceImpl.java:412-440 | writes the next checkpoint row |
| AttributionService.AttributionServiceImpl.AbortRun | src/main/java/cn/webank/dosconfig/service/attribution/AttributionServiceImpl.java:444-447 | a failure after some checkpoints ends the history with the failed row |
| AttributionService.AttributionServiceImpl.CompleteRun | src/main/java/cn/webank/dosconfig/service/attribution/AttributionServiceImpl.java:439-440 | after the fourth checkpoint the result is upserted and the history ends with the success row |
| AttributionService.AttributionServiceImpl.RunAttributionTask | src/main/java/cn/webank/dosconfig/service/attribution/AttributionServiceImpl.java:398-448 | an unknown task changes nothing; otherwise exactly the run's history is written, the last row is stored, and the result is upserted only when the run completes |
| AttributionService.AttributionServiceImpl.RunTree | src/main/java/cn/webank/dosconfig/service/attribution/AttributionServiceImpl.java:414-442 | the run from the fetch on ends as `AttributeTree` says |
| AttributionService.AttributionServiceImpl.RunValues | src/main/java/cn/webank/dosconfig/service/attribution/AttributionServiceImpl.java:421-442 | the run from the computation on ends as `AttributeValues` says |
| AttributionService.AttributionServiceImpl.RunComputation | src/main/java/cn/webank/dosconfig/service/attribution/AttributionServiceImpl.java:432-442 | the run from the assembly on ends as `AttributeComputation` says |

## Left out

- JSON parsing and serialisation (`parseJson`, `toJson`, `fromJson`) are not modelled. A tree configuration is stored parsed, or as `Malformed` when its JSON does not parse. A JSON literal `null` as the whole configuration, and the failure of `toJson` on the result tree, are not modelled.
- Epsilon is positive throughout: the `Tolerance` type of the configuration, and `requires 0.0 < eps` in the node engine and the Adtributor calculator. The property `attribution.epsilon` accepts any value in the source. With epsilon 0 or below, `sanitizeValue` would pass a non-positive value to `Math.log`, so `new BigDecimal` of a NaN or infinite logarithm would throw. The DIV aggregate and `safeDivide` could divide by zero (ArithmeticException). Neither path is modelled. The zero-denominator branch of `DeltaRate` (NodeMetricComputationEngine.java lines 98-101) is modelled, but no caller can reach it.
- `MathContext` rounding (DECIMAL64 and 8 digits) and the `doubleValue` conversions in `surprise` and `naturalLog` are not modelled: values are exact reals. `Math.log` and `log10` are parameters.
- `new BigDecimal(double)` of a NaN or infinite surprise is modelled as an error for two shares of opposite signs. Other overflows of `double` are not modelled.
- The iteration order of the HashSet of metric ids and of the HashMaps of dimension values is a parameter (`order`) or the order of the entries: the Java order depends on hashing.
- `submitTask` and the executor are not modelled: `RunAttributionTask` is called directly, with no concurrency between runs.
- `generateTaskId` (clock and UUID) is not modelled: the id is a parameter. `CreateTask` requires it to be unused.
- `LocalDateTime.now()` is a clock function of the checkpoint index. The two readings inside one mark method (start time and update time) are taken as one.
- Exceptions of the DAOs themselves (database errors) are not modelled. Neither is the mark methods' own failure inside the catch block.
- The `DateTimeParseException` message of `createTask` is not modelled: the error records only the date text.
- The setters of an `AnalysisTask`'s fixed fields (`TaskSpec`: identity, tree, list, threshold, granularity, dates, creator, creation time) are never called on a loaded task. The model holds those fields as one constant value of the object.
- The TaskStatus CANCELED is never assigned by the core. The model defines it and does nothing with it.
- The query operations of the service are not part of this model: getMetrics, getMetricTrend, getTrees, getTreeConfig, getTasks, getTaskStatus, getAttributionResult, getAiReport, and the trend and chart helpers. They are read-only and outside the attribution pipeline.
- `TreeInsertSqlGenerator.generateInsertSql` and `main` (file reading, YAML loading, printing the INSERT statement with `String.format` and the current time) are not modelled. Only the helpers that decide the statement's values are.
- A YAML float is a `Double` whose finite value is the exact real it spells: the rounding of the decimal literal to binary and the `Double.toString` text are not computed (the text is carried with the value).
- JavaStrings.Left: counts characters as Unicode scalar values, where `StringUtils.left` counts UTF-16 code units. A message with characters outside the Basic Multilingual Plane is cut later than in Java, and a cut through a surrogate pair is not modelled. This carries over to `AnalysisTask.SetFailed` and `MarkTaskFailed`.
- TreeInsertSql.ParseInt: accepts the ASCII digits 0-9 only. `Integer.parseInt` also accepts every other Unicode decimal digit (through `Character.digit`), so a version such as "١٢" reads as 12 in Java and as the default in `ReadInt`.
- `EOperator` values are modelled as their `toString()` text. `setOp(null)` is not modelled, because `operation` dereferences `op` before it could happen.
- `FilterCondition.toString`, the getters and setters and the JSON annotations are not modelled.
- A `null` element inside a node's dimension list, and a `null` timeGranularity read back from the database, are not modelled.
- A `null` totalDelta in `computeContribution` cannot occur (both callers pass a computed delta) and is not modelled.
- Unicode case folding in `equalsIgnoreCase` and `toUpperCase` is not modelled: case mapping is ASCII only.
- `BigDecimal.valueOf(number.doubleValue())` for a numeric cell is modelled as the number's exact value.
- The controller, the older `service/impl/AttributionServiceImpl` stub and the response DTOs are not part of this model.
