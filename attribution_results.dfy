/** The computing half of the attribution service: which metrics a tree
    needs and how their single-day values are fetched, the per-node
    dimension attribution with its skip rules, the local and global
    contribution ratios, and the recursive assembly of the result tree. The
    metric service is a function from a request to the rows it returns. */
module AttributionResults {
  import opened Wrappers
  import opened JavaStrings
  import opened Sums
  import opened MetricTree
  import opened NodeMetricEngine
  import opened Adtributor
  import opened AdtributorLemmas
  import opened MetricRows
  import opened EnumParse
  import opened TaskDates

  // ---------------------------------------------------------------------
  // Configuration and environment

  /** A tolerance: a positive number. */
  type Tolerance = x: real | 0.0 < x witness 1.0

  /** The service's configurable properties. */
  datatype Config = Config(
    epsilon: Tolerance,
    metricQueryLimit: int,
    dimensionTopLimit: int,
    dimensionMaxResult: int,
    dimensionEpThreshold: real,
    dimensionEpTotalThreshold: real)

  /** The defaults of the properties. */
  const DefaultConfig := Config(0.000001, 1000, 1000, 20, 0.1, 0.67)

  /** The thresholds handed through DimensionAttributionEngine to the
      Adtributor calculation. */
  function DimensionThresholds(c: Config): (th: Thresholds)
    ensures th.epsilon == c.epsilon && th.maxResultSize == c.dimensionMaxResult
    ensures th.epThreshold == c.dimensionEpThreshold && th.epTotalThreshold == c.dimensionEpTotalThreshold
  {
    Thresholds(c.epsilon, c.dimensionMaxResult, c.dimensionEpThreshold, c.dimensionEpTotalThreshold)
  }

  /** The metric service request (Req_04302590_01) and its parts. */
  datatype FieldOrder = FieldOrder(field: string, direction: string)
  datatype TimeDimension = TimeDimension(dimension: string, granularity: string, dateRange: seq<string>)
  datatype MetricRequest = MetricRequest(
    metrics: seq<string>,
    dimensions: seq<string>,
    timeDimensions: seq<TimeDimension>,
    sort: seq<FieldOrder>,
    limit: int)

  /** What the service reads from outside: its configuration, the metric
      service, the text-to-decimal conversion of `new BigDecimal(text)`, and
      the two logarithms. */
  datatype Env = Env(
    config: Config,
    query: MetricRequest -> seq<Row>,
    parse: string -> Option<real>,
    ln: real -> real,
    log10: real -> real)

  /** The two days a task compares, at its granularity. */
  datatype Period = Period(baselineDate: CalendarDate, compareDate: CalendarDate, granularity: DateGranularity)

  /** Every exception a run can raise below the task level. */
  datatype RunError =
    | RowFailure(rowError: RowError)
    | EngineFailure(engineError: EngineError)
    | AttributionFailure(attributionError: AdtributorError)
      /** `List.of(metricId)` on a node whose metricId is null. */
    | NullMetricId

  const MissingMetricValuePrefix := "缺少指标值: "
  const NoEnumConstantPrefix := "No enum constant cn.webank.dosconfig.enums.OperationType."

  /** getMessage() of each exception; the NullPointerException of List.of
      has none. */
  function RunErrorMessage(e: RunError): (m: Option<string>)
    ensures m.None? <==> e.NullMetricId?
  {
    match e
    case RowFailure(re) => Some(RowErrorMessage(re))
    case EngineFailure(MissingMetricValue(id)) => Some(MissingMetricValuePrefix + id.GetOr("null"))
    case EngineFailure(NoEnumConstant(name)) => Some(NoEnumConstantPrefix + name)
    case AttributionFailure(NonFiniteSurprise) => Some(NonFiniteMessage)
    case NullMetricId => None
  }

  // ---------------------------------------------------------------------
  // Requests

  const DefaultTimeField := "dim_calendar_a.fmt_date"

  /** TIME_DIMENSION_MAPPING: DAY, WEEK and MONTH have a calendar column. */
  function TimeDimensionMapping(g: DateGranularity): Option<string> {
    match g
    case DAY => Some("dim_calendar_a.fmt_date")
    case WEEK => Some("dim_calendar_a.week_begin_date")
    case MONTH => Some("dim_calendar_a.month_begin_date")
    case YEAR => None
  }

  /** resolveTimeDimensionField: the mapped column, or the default one. */
  function TimeDimensionField(g: DateGranularity): (f: string)
    ensures TimeDimensionMapping(g).Some? ==> f == TimeDimensionMapping(g).value
    ensures TimeDimensionMapping(g).None? ==> f == DefaultTimeField
  {
    TimeDimensionMapping(g).GetOr(DefaultTimeField)
  }

  /** YEAR has no column of its own and is queried on the daily column. */
  lemma YearUsesDailyField()
    ensures TimeDimensionField(YEAR) == TimeDimensionField(DAY)
    ensures TimeDimensionField(WEEK) != TimeDimensionField(DAY)
    ensures TimeDimensionField(MONTH) != TimeDimensionField(DAY)
    ensures TimeDimensionField(MONTH) != TimeDimensionField(WEEK)
  {
    var d, w, m := TimeDimensionField(DAY), TimeDimensionField(WEEK), TimeDimensionField(MONTH);
    assert d[15] != w[15] && d[15] != m[15] && w[15] != m[15];
  }

  /** buildSingleDateMetricRequest: one metric, one time dimension whose
      date range is the single formatted day, and the granularity's name in
      lower case (which is its code). */
  function SingleDateRequest(metricId: string, dimensions: seq<string>, date: CalendarDate,
                             g: DateGranularity, orders: seq<FieldOrder>, limit: int): (req: MetricRequest)
    ensures req.metrics == [metricId] && req.dimensions == dimensions && req.sort == orders && req.limit == limit
    ensures |req.timeDimensions| == 1 && req.timeDimensions[0].dateRange == [Format(date), Format(date)]
  {
    var day := Format(date);
    MetricRequest([metricId], dimensions, [TimeDimension(TimeDimensionField(g), DateGran(g), [day, day])], orders, limit)
  }

  /** The day the request names parses back to the requested date, on both
      ends of its range. */
  lemma RequestNamesTheDay(metricId: string, dimensions: seq<string>, date: CalendarDate,
                           g: DateGranularity, orders: seq<FieldOrder>, limit: int)
    ensures var range := SingleDateRequest(metricId, dimensions, date, g, orders, limit).timeDimensions[0].dateRange;
            |range| == 2 && ParseDate(range[0]) == Some(date) && range[1] == range[0]
  {
    ParseFormat(date);
  }

  // ---------------------------------------------------------------------
  // Contribution ratios

  /** computeContribution: 0 when the total is within epsilon of 0,
      otherwise the node's delta over the total's magnitude. */
  function ComputeContribution(nodeDelta: real, totalDelta: real, eps: real): (r: real)
    requires 0.0 < eps
    ensures Abs(totalDelta) < eps ==> r == 0.0
    ensures Abs(totalDelta) >= eps ==> r * Abs(totalDelta) == nodeDelta
  {
    if Abs(totalDelta) < eps then 0.0 else nodeDelta / Abs(totalDelta)
  }

  /** Dividing by the magnitude keeps the sign of the node's delta. */
  lemma ContributionKeepsSign(nodeDelta: real, totalDelta: real, eps: real)
    requires 0.0 < eps && Abs(totalDelta) >= eps
    ensures 0.0 < ComputeContribution(nodeDelta, totalDelta, eps) <==> 0.0 < nodeDelta
    ensures ComputeContribution(nodeDelta, totalDelta, eps) < 0.0 <==> nodeDelta < 0.0
  {
    var t := Abs(totalDelta);
    var r := ComputeContribution(nodeDelta, totalDelta, eps);
    assert r * t == nodeDelta && 0.0 < t;
    if 0.0 < r { assert 0.0 < r * t; }
    if r < 0.0 { assert r * t < 0.0; }
    if r == 0.0 { assert r * t == 0.0; }
  }

  /** A node measured against its own delta has contribution 1, -1 or 0. */
  lemma OwnContribution(delta: real, eps: real)
    requires 0.0 < eps
    ensures ComputeContribution(delta, delta, eps) ==
            (if Abs(delta) < eps then 0.0 else if 0.0 < delta then 1.0 else -1.0)
  {
    if Abs(delta) >= eps {
      if 0.0 < delta {
        assert Abs(delta) == delta && delta / delta == 1.0;
      } else {
        assert Abs(delta) == -delta && delta / -delta == -1.0;
      }
    }
  }

  /** Contributions against one total add up: the ratios of a list of deltas
      sum to the ratio of their sum. */
  lemma {:induction false} ContributionsOfSum(ds: seq<real>, total: real, eps: real)
    requires 0.0 < eps
    ensures Sum(seq(|ds|, i requires 0 <= i < |ds| => ComputeContribution(ds[i], total, eps)))
            == ComputeContribution(Sum(ds), total, eps)
  {
    var cs := seq(|ds|, i requires 0 <= i < |ds| => ComputeContribution(ds[i], total, eps));
    if ds != [] {
      var front := ds[..|ds| - 1];
      ContributionsOfSum(front, total, eps);
      assert cs[..|cs| - 1] == seq(|front|, i requires 0 <= i < |front| => ComputeContribution(front[i], total, eps));
      assert Sum(ds) == Sum(front) + ds[|ds| - 1];
      assert Sum(cs) == Sum(cs[..|cs| - 1]) + cs[|cs| - 1];
    }
  }

  // ---------------------------------------------------------------------
  // The metrics a tree needs

  /** The node or one of its descendants is bound to the metric. */
  predicate Mentions(node: MetricTreeNode, id: string) {
    node.metricId == Some(id) || exists i :: 0 <= i < |node.children| && Mentions(node.children[i], id)
  }

  /** `sub` occurs in the tree under `root` (or is the root). */
  predicate Contains(root: MetricTreeNode, sub: MetricTreeNode) {
    root == sub || exists i :: 0 <= i < |root.children| && Contains(root.children[i], sub)
  }

  /** The node's own metric id, when it is non-null and non-blank. */
  function OwnMetricId(node: MetricTreeNode): set<string> {
    if node.metricId.Some? && !IsBlank(node.metricId.value) then {node.metricId.value} else {}
  }

  /** collectMetricIds: the node's own metric id and those of its subtrees. */
  function CollectMetricIds(node: MetricTreeNode): set<string> {
    OwnMetricId(node) + ChildMetricIds(node.children)
  }

  function ChildMetricIds(children: seq<MetricTreeNode>): set<string> {
    if children == [] then {}
    else CollectMetricIds(children[0]) + ChildMetricIds(children[1..])
  }

  /** Exactly the non-blank metric ids that occur anywhere in the tree. */
  lemma {:induction false} CollectMetricIdsSpec(node: MetricTreeNode, id: string)
    ensures id in CollectMetricIds(node) <==> Mentions(node, id) && !IsBlank(id)
    decreases node, 1
  {
    ChildMetricIdsSpec(node.children, id);
  }

  lemma {:induction false} ChildMetricIdsSpec(children: seq<MetricTreeNode>, id: string)
    ensures id in ChildMetricIds(children) <==>
            (exists i :: 0 <= i < |children| && Mentions(children[i], id)) && !IsBlank(id)
    decreases children, 0
  {
    if children != [] {
      CollectMetricIdsSpec(children[0], id);
      ChildMetricIdsSpec(children[1..], id);
      if exists i :: 0 <= i < |children| && Mentions(children[i], id) {
        var i :| 0 <= i < |children| && Mentions(children[i], id);
        if 0 < i { assert children[1..][i - 1] == children[i]; }
      }
      if exists i :: 0 <= i < |children[1..]| && Mentions(children[1..][i], id) {
        var i :| 0 <= i < |children[1..]| && Mentions(children[1..][i], id);
        assert children[i + 1] == children[1..][i];
      }
    }
  }

  /** A leaf whose metric has no value makes the whole computation fail,
      wherever it sits in the tree. */
  lemma {:induction false} UnvaluedLeafFails(root: MetricTreeNode, leaf: MetricTreeNode,
                                             values: map<string, MetricValue>, eps: real, ln: real -> real)
    requires 0.0 < eps && Contains(root, leaf) && leaf.IsLeaf()
    requires leaf.metricId.None? || leaf.metricId.value !in values
    ensures Compute(root, values, eps, ln).Err?
    decreases root
  {
    if root != leaf {
      var i :| 0 <= i < |root.children| && Contains(root.children[i], leaf);
      UnvaluedLeafFails(root.children[i], leaf, values, eps, ln);
      var cs := root.children;
      assert cs[..i + 1][..i] == cs[..i];
      assert cs[..i + 1][i] == cs[i];
      assert ComputeChildren(cs[..i + 1], values, eps, ln).Err?;
      ChildrenErrorPropagates(cs, i + 1, values, eps, ln);
    }
  }

  /** So a leaf with a null or blank metric id, which is never collected and
      hence never fetched, fails the lookup. */
  lemma BlankLeafFails(root: MetricTreeNode, leaf: MetricTreeNode,
                       values: map<string, MetricValue>, eps: real, ln: real -> real)
    requires 0.0 < eps && Contains(root, leaf) && leaf.IsLeaf()
    requires leaf.metricId.None? || IsBlank(leaf.metricId.value)
    requires values.Keys <= CollectMetricIds(root)
    ensures Compute(root, values, eps, ln).Err?
  {
    if leaf.metricId.Some? {
      CollectMetricIdsSpec(root, leaf.metricId.value);
    }
    UnvaluedLeafFails(root, leaf, values, eps, ln);
  }

  // ---------------------------------------------------------------------
  // Metric values

  /** queryMetricValue: the sum of the metric over every row the service
      returns for the single day, with no dimension and no sort. */
  function MetricValueOf(metricId: string, date: CalendarDate, g: DateGranularity, env: Env): Result<real, RowError>
  {
    QueryMetricValue(env.query(SingleDateRequest(metricId, [], date, g, [], env.config.metricQueryLimit)),
                     metricId, env.parse)
  }

  /** One metric's pair of values: the baseline day's query, then the
      compare day's. */
  function FetchOne(id: string, p: Period, env: Env): Result<MetricValue, RowError> {
    var b :- MetricValueOf(id, p.baselineDate, p.granularity, env);
    var c :- MetricValueOf(id, p.compareDate, p.granularity, env);
    Ok(MetricValue(b, c))
  }

  /** A map filled id by id in the given order, each entry from `fetch`; the
      first failure aborts. */
  function FetchAll(ids: seq<string>, fetch: string -> Result<MetricValue, RowError>)
    : Result<map<string, MetricValue>, RowError>
  {
    if ids == [] then Ok(map[])
    else
      var front :- FetchAll(ids[..|ids| - 1], fetch);
      var v :- fetch(ids[|ids| - 1]);
      Ok(front[ids[|ids| - 1] := v])
  }

  /** buildMetricValueMap over the ids in iteration order. */
  function FetchMetricValues(ids: seq<string>, p: Period, env: Env): Result<map<string, MetricValue>, RowError> {
    FetchAll(ids, id => FetchOne(id, p, env))
  }

  /** The map is built exactly when every fetch succeeds, whatever the
      order. */
  lemma {:induction false} FetchAllSucceedsIff(ids: seq<string>, fetch: string -> Result<MetricValue, RowError>)
    ensures FetchAll(ids, fetch).Ok? <==> forall i :: 0 <= i < |ids| ==> fetch(ids[i]).Ok?
  {
    if ids != [] {
      var front := ids[..|ids| - 1];
      FetchAllSucceedsIff(front, fetch);
      assert forall i :: 0 <= i < |front| ==> front[i] == ids[i];
    }
  }

  /** It holds one entry per id, the value fetched for that id. */
  lemma {:induction false} FetchAllMap(ids: seq<string>, fetch: string -> Result<MetricValue, RowError>)
    requires FetchAll(ids, fetch).Ok?
    ensures FetchAll(ids, fetch).value.Keys == set i | 0 <= i < |ids| :: ids[i]
    ensures forall i :: 0 <= i < |ids| ==> fetch(ids[i]).Ok? && FetchAll(ids, fetch).value[ids[i]] == fetch(ids[i]).value
  {
    if ids != [] {
      var front := ids[..|ids| - 1];
      FetchAllMap(front, fetch);
      assert forall i :: 0 <= i < |front| ==> front[i] == ids[i];
      assert (set i | 0 <= i < |ids| :: ids[i]) == (set i | 0 <= i < |front| :: front[i]) + {ids[|ids| - 1]};
    }
  }

  /** One more id fetched successfully extends the map by its entry. */
  lemma FetchStep(ids: seq<string>, i: nat, fetch: string -> Result<MetricValue, RowError>,
                  values: map<string, MetricValue>, v: MetricValue)
    requires i < |ids| && FetchAll(ids[..i], fetch) == Ok(values) && fetch(ids[i]) == Ok(v)
    ensures FetchAll(ids[..i + 1], fetch) == Ok(values[ids[i] := v])
  {
    assert ids[..i + 1][..i] == ids[..i];
  }

  /** A failing fetch aborts the whole map with its error. */
  lemma FetchFails(ids: seq<string>, i: nat, fetch: string -> Result<MetricValue, RowError>,
                   values: map<string, MetricValue>)
    requires i < |ids| && FetchAll(ids[..i], fetch) == Ok(values) && fetch(ids[i]).Err?
    ensures FetchAll(ids, fetch) == Err(fetch(ids[i]).error)
  {
    assert ids[..i + 1][..i] == ids[..i];
    FetchErrorPropagates(ids, i + 1, fetch);
  }

  lemma {:induction false} FetchErrorPropagates(ids: seq<string>, k: nat, fetch: string -> Result<MetricValue, RowError>)
    requires k <= |ids| && FetchAll(ids[..k], fetch).Err?
    ensures FetchAll(ids, fetch) == FetchAll(ids[..k], fetch)
    decreases |ids| - k
  {
    if k < |ids| {
      var front := ids[..|ids| - 1];
      assert front[..k] == ids[..k];
      FetchErrorPropagates(front, k, fetch);
    } else {
      assert ids[..k] == ids;
    }
  }

  /** The ids in the iteration order of a HashSet holding them. */
  predicate Enumerates(ids: seq<string>, s: set<string>) {
    (set i | 0 <= i < |ids| :: ids[i]) == s && forall i, j :: 0 <= i < j < |ids| ==> ids[i] != ids[j]
  }

  /** buildMetricValueMap: the ids collected from the tree, in the order
      `order` enumerates the set, each queried for the baseline day and then
      the compare day. */
  method BuildMetricValueMap(root: MetricTreeNode, p: Period, env: Env, order: set<string> -> seq<string>)
    returns (r: Result<map<string, MetricValue>, RowError>)
    ensures r == FetchMetricValues(order(CollectMetricIds(root)), p, env)
  {
    var metricIds := order(CollectMetricIds(root));
    ghost var fetch := id => FetchOne(id, p, env);
    var metricValues: map<string, MetricValue> := map[];
    var i := 0;
    while i < |metricIds|
      invariant 0 <= i <= |metricIds|
      invariant FetchAll(metricIds[..i], fetch) == Ok(metricValues)
    {
      var id := metricIds[i];
      var baselineValue := MetricValueOf(id, p.baselineDate, p.granularity, env);
      if baselineValue.Err? {
        assert fetch(id) == Err(baselineValue.error);
        FetchFails(metricIds, i, fetch, metricValues);
        return Err(baselineValue.error);
      }
      var compareValue := MetricValueOf(id, p.compareDate, p.granularity, env);
      if compareValue.Err? {
        assert fetch(id) == Err(compareValue.error);
        FetchFails(metricIds, i, fetch, metricValues);
        return Err(compareValue.error);
      }
      assert fetch(id) == Ok(MetricValue(baselineValue.value, compareValue.value));
      FetchStep(metricIds, i, fetch, metricValues, MetricValue(baselineValue.value, compareValue.value));
      metricValues := metricValues[id := MetricValue(baselineValue.value, compareValue.value)];
      i := i + 1;
    }
    assert metricIds[..i] == metricIds;
    return Ok(metricValues);
  }

  /** With a faithful enumeration the map holds a value for exactly the
      metrics of the tree, so every leaf with a non-blank metric id finds
      its value. */
  lemma MetricValueMapKeys(root: MetricTreeNode, p: Period, env: Env, ids: seq<string>)
    requires Enumerates(ids, CollectMetricIds(root))
    requires FetchMetricValues(ids, p, env).Ok?
    ensures FetchMetricValues(ids, p, env).value.Keys == CollectMetricIds(root)
    ensures forall id :: id in CollectMetricIds(root) ==>
              FetchOne(id, p, env).Ok? && FetchMetricValues(ids, p, env).value[id] == FetchOne(id, p, env).value
  {
    FetchAllMap(ids, id => FetchOne(id, p, env));
  }

  /** Whether the values can be fetched does not depend on the order the
      set is enumerated in: only which failure is reported does. */
  lemma FetchOrderIrrelevant(ids: seq<string>, ids': seq<string>, p: Period, env: Env)
    requires (set i | 0 <= i < |ids| :: ids[i]) == (set i | 0 <= i < |ids'| :: ids'[i])
    ensures FetchMetricValues(ids, p, env).Ok? <==> FetchMetricValues(ids', p, env).Ok?
    ensures FetchMetricValues(ids, p, env).Ok? ==> FetchMetricValues(ids, p, env) == FetchMetricValues(ids', p, env)
  {
    FetchAllOrderIrrelevant(ids, ids', id => FetchOne(id, p, env));
  }

  lemma FetchAllOrderIrrelevant(ids: seq<string>, ids': seq<string>, fetch: string -> Result<MetricValue, RowError>)
    requires (set i | 0 <= i < |ids| :: ids[i]) == (set i | 0 <= i < |ids'| :: ids'[i])
    ensures FetchAll(ids, fetch).Ok? <==> FetchAll(ids', fetch).Ok?
    ensures FetchAll(ids, fetch).Ok? ==> FetchAll(ids, fetch) == FetchAll(ids', fetch)
  {
    var s := set i | 0 <= i < |ids| :: ids[i];
    FetchAllSucceedsIff(ids, fetch);
    FetchAllSucceedsIff(ids', fetch);
    assert forall i :: 0 <= i < |ids| ==> ids[i] in s;
    assert forall i :: 0 <= i < |ids'| ==> ids'[i] in s;
    assert forall x :: x in s ==> exists i :: 0 <= i < |ids| && ids[i] == x;
    assert forall x :: x in s ==> exists i :: 0 <= i < |ids'| && ids'[i] == x;
    if FetchAll(ids, fetch).Ok? {
      FetchAllMap(ids, fetch);
      FetchAllMap(ids', fetch);
      var m, m' := FetchAll(ids, fetch).value, FetchAll(ids', fetch).value;
      forall x | x in s ensures m[x] == m'[x] {
        var i :| 0 <= i < |ids| && ids[i] == x;
        var j :| 0 <= j < |ids'| && ids'[j] == x;
      }
      assert m == m';
    }
  }

  // ---------------------------------------------------------------------
  // Dimension attribution of one node

  /** queryDimensionValues: the day's rows for the metric split by one
      dimension, sorted by the metric descending, summed per dimension
      value. */
  function DimensionValues(metricId: string, dimensionId: string, date: CalendarDate, g: DateGranularity, env: Env)
    : Result<Entries, RowError>
  {
    var req := SingleDateRequest(metricId, [dimensionId], date, g, [FieldOrder(metricId, "desc")],
                                 env.config.dimensionTopLimit);
    AggregateRows(env.query(req), metricId, dimensionId, env.parse)
  }

  method QueryDimensionValues(metricId: string, dimensionId: string, date: CalendarDate, g: DateGranularity, env: Env)
    returns (r: Result<Entries, RowError>)
    ensures r == DimensionValues(metricId, dimensionId, date, g, env)
  {
    var orders := [FieldOrder(metricId, "desc")];
    var req := SingleDateRequest(metricId, [dimensionId], date, g, orders, env.config.dimensionTopLimit);
    var rows := env.query(req);
    r := AggregateByDimension(rows, metricId, dimensionId, env.parse);
  }

  /** One dimension: the baseline values, then the compare values, then the
      Adtributor ranking of the dimension's values. */
  function DimensionItems(metricId: Option<string>, dimensionId: string, p: Period, env: Env)
    : Result<seq<Item>, RunError>
  {
    if metricId.None? then Err(NullMetricId)
    else
      match DimensionValues(metricId.value, dimensionId, p.baselineDate, p.granularity, env)
      case Err(e) => Err(RowFailure(e))
      case Ok(baselineValues) =>
        match DimensionValues(metricId.value, dimensionId, p.compareDate, p.granularity, env)
        case Err(e) => Err(RowFailure(e))
        case Ok(compareValues) =>
          match Calculate(dimensionId, compareValues, baselineValues, DimensionThresholds(env.config), env.log10)
          case Err(e) => Err(AttributionFailure(e))
          case Ok(items) => Ok(items)
  }

  /** The items of each dimension in turn, concatenated. */
  function AllDimensionItems(metricId: Option<string>, dims: seq<string>, p: Period, env: Env)
    : Result<seq<Item>, RunError>
  {
    if dims == [] then Ok([])
    else
      var front :- AllDimensionItems(metricId, dims[..|dims| - 1], p, env);
      var items :- DimensionItems(metricId, dims[|dims| - 1], p, env);
      Ok(front + items)
  }

  /** buildDimensionAttributionForNode: nothing for a node without
      dimensions or whose delta is exactly 0; otherwise every configured
      dimension's items. */
  function NodeDimensionAttribution(c: NodeComputation, p: Period, env: Env): Result<seq<Item>, RunError>
  {
    if c.node.dimensions.None? || c.node.dimensions.value == [] then Ok([])
    else if c.deltaValue == 0.0 then Ok([])
    else AllDimensionItems(c.node.metricId, c.node.dimensions.value, p, env)
  }

  /** One more dimension appends its items. */
  lemma DimensionStep(metricId: Option<string>, dims: seq<string>, i: nat, p: Period, env: Env,
                      results: seq<Item>, items: seq<Item>)
    requires i < |dims| && AllDimensionItems(metricId, dims[..i], p, env) == Ok(results)
    requires DimensionItems(metricId, dims[i], p, env) == Ok(items)
    ensures AllDimensionItems(metricId, dims[..i + 1], p, env) == Ok(results + items)
  {
    assert dims[..i + 1][..i] == dims[..i];
  }

  /** A failing dimension aborts the node's attribution with its error. */
  lemma DimensionFails(metricId: Option<string>, dims: seq<string>, i: nat, p: Period, env: Env,
                       results: seq<Item>)
    requires i < |dims| && AllDimensionItems(metricId, dims[..i], p, env) == Ok(results)
    requires DimensionItems(metricId, dims[i], p, env).Err?
    ensures AllDimensionItems(metricId, dims, p, env) == Err(DimensionItems(metricId, dims[i], p, env).error)
  {
    assert dims[..i + 1][..i] == dims[..i];
    DimensionErrorPropagates(metricId, dims, i + 1, p, env);
  }

  lemma {:induction false} DimensionErrorPropagates(metricId: Option<string>, dims: seq<string>, k: nat,
                                                    p: Period, env: Env)
    requires k <= |dims|
    requires AllDimensionItems(metricId, dims[..k], p, env).Err?
    ensures AllDimensionItems(metricId, dims, p, env) == AllDimensionItems(metricId, dims[..k], p, env)
    decreases |dims| - k
  {
    if k < |dims| {
      var front := dims[..|dims| - 1];
      assert front[..k] == dims[..k];
      DimensionErrorPropagates(metricId, front, k, p, env);
    } else {
      assert dims[..k] == dims;
    }
  }

  /** The body of buildDimensionAttributionForNode's loop for one
      dimension: both dates' values, then the items computed from them. */
  method DimensionAttribution(metricId: Option<string>, dimensionId: string, p: Period, env: Env)
    returns (r: Result<seq<Item>, RunError>)
    ensures r == DimensionItems(metricId, dimensionId, p, env)
  {
    if metricId.None? {
      return Err(NullMetricId);
    }
    var baselineValues := QueryDimensionValues(metricId.value, dimensionId, p.baselineDate, p.granularity, env);
    if baselineValues.Err? {
      return Err(RowFailure(baselineValues.error));
    }
    var compareValues := QueryDimensionValues(metricId.value, dimensionId, p.compareDate, p.granularity, env);
    if compareValues.Err? {
      return Err(RowFailure(compareValues.error));
    }
    var items := CalculateItems(dimensionId, compareValues.value, baselineValues.value,
                                DimensionThresholds(env.config), env.log10);
    if items.Err? {
      return Err(AttributionFailure(items.error));
    }
    return Ok(items.value);
  }

  /** buildDimensionAttributionForNode as the source runs it: a loop over the
      dimensions appending each dimension's items. */
  method BuildDimensionAttributionForNode(c: NodeComputation, p: Period, env: Env)
    returns (r: Result<seq<Item>, RunError>)
    ensures r == NodeDimensionAttribution(c, p, env)
  {
    if c.node.dimensions.None? || c.node.dimensions.value == [] {
      return Ok([]);
    }
    if c.deltaValue == 0.0 {
      return Ok([]);
    }
    var dims := c.node.dimensions.value;
    var metricId := c.node.metricId;
    var results: seq<Item> := [];
    var i := 0;
    while i < |dims|
      invariant 0 <= i <= |dims|
      invariant AllDimensionItems(metricId, dims[..i], p, env) == Ok(results)
    {
      var items := DimensionAttribution(metricId, dims[i], p, env);
      if items.Err? {
        DimensionFails(metricId, dims, i, p, env, results);
        return Err(items.error);
      }
      DimensionStep(metricId, dims, i, p, env, results, items.value);
      results := results + items.value;
      i := i + 1;
    }
    assert dims[..i] == dims;
    return Ok(results);
  }

  /** Every item the selection emits is labelled with the dimension it was
      computed for. */
  lemma SelectedItemsNamed(dimensionId: string, cs: seq<Candidate>, th: Thresholds)
    ensures forall i :: 0 <= i < |Select(dimensionId, cs, th)| ==> Select(dimensionId, cs, th)[i].dimension == dimensionId
  {
    SelectFromSpec(dimensionId, cs, th, 0.0, 1);
  }

  /** Every item of a dimension is labelled with that dimension. */
  lemma DimensionItemsNamed(metricId: Option<string>, dimensionId: string, p: Period, env: Env)
    requires DimensionItems(metricId, dimensionId, p, env).Ok?
    ensures forall item :: item in DimensionItems(metricId, dimensionId, p, env).value ==> item.dimension == dimensionId
  {
    var baselineValues := DimensionValues(metricId.value, dimensionId, p.baselineDate, p.granularity, env).value;
    var compareValues := DimensionValues(metricId.value, dimensionId, p.compareDate, p.granularity, env).value;
    var th := DimensionThresholds(env.config);
    var cs := CandidatesOf(compareValues, baselineValues, th.epsilon, env.log10).value;
    SelectedItemsNamed(dimensionId, SortBySurprise(cs), th);
  }

  /** A node's items all belong to its configured dimensions; a node with
      items has dimensions, a non-zero delta and a metric id. */
  lemma {:induction false} AllDimensionItemsNamed(metricId: Option<string>, dims: seq<string>, p: Period, env: Env)
    requires AllDimensionItems(metricId, dims, p, env).Ok?
    ensures forall item :: item in AllDimensionItems(metricId, dims, p, env).value ==> item.dimension in dims
    ensures AllDimensionItems(metricId, dims, p, env).value != [] ==> metricId.Some?
  {
    if dims != [] {
      var front := dims[..|dims| - 1];
      AllDimensionItemsNamed(metricId, front, p, env);
      DimensionItemsNamed(metricId, dims[|dims| - 1], p, env);
      assert forall d :: d in front ==> d in dims;
    }
  }

  lemma NodeItemsNamed(c: NodeComputation, p: Period, env: Env)
    requires NodeDimensionAttribution(c, p, env).Ok?
    ensures NodeDimensionAttribution(c, p, env).value != [] ==>
              c.node.dimensions.Some? && c.node.dimensions.value != [] && c.deltaValue != 0.0 && c.node.metricId.Some?
    ensures forall item :: item in NodeDimensionAttribution(c, p, env).value ==>
              c.node.dimensions.Some? && item.dimension in c.node.dimensions.value
  {
    if c.node.dimensions.Some? && c.node.dimensions.value != [] && c.deltaValue != 0.0 {
      AllDimensionItemsNamed(c.node.metricId, c.node.dimensions.value, p, env);
    }
  }

  /** A node with dimensions and a change but no metric id raises the null
      pointer exception on its first dimension. */
  lemma {:induction false} NullMetricIdFails(c: NodeComputation, p: Period, env: Env)
    requires c.node.dimensions.Some? && c.node.dimensions.value != [] && c.deltaValue != 0.0
    requires c.node.metricId.None?
    ensures NodeDimensionAttribution(c, p, env) == Err(NullMetricId)
  {
    var dims := c.node.dimensions.value;
    assert dims[..1][..0] == [];
    assert AllDimensionItems(c.node.metricId, dims[..1], p, env) == Err(NullMetricId);
    DimensionErrorPropagates(c.node.metricId, dims, 1, p, env);
  }

  // ---------------------------------------------------------------------
  // The result tree

  /** AttributionTreeResultNodeDTO. */
  datatype ResultNode = ResultNode(
    nodeId: Option<string>,
    nodeName: Option<string>,
    metricId: Option<string>,
    isRate: Option<bool>,
    op: Option<string>,
    currentValue: real,
    baselineValue: real,
    deltaValue: real,
    deltaRate: real,
    contributionLocal: real,
    contributionGlobal: real,
    dimensionAttribution: seq<Item>,
    children: seq<ResultNode>)

  /** addDimAttributionResult: the children first, each measured against
      this node's delta, then this node's dimension attribution, then its
      contributions against its parent's and the root's delta. */
  function Assemble(c: NodeComputation, rootDelta: real, parentDelta: real, p: Period, env: Env)
    : Result<ResultNode, RunError>
  {
    var children :- AssembleChildren(c.children, rootDelta, c.deltaValue, p, env);
    var dims :- NodeDimensionAttribution(c, p, env);
    var eps := env.config.epsilon;
    Ok(ResultNode(c.node.nodeId, c.node.nodeName, c.node.metricId, c.node.isRate, c.node.op,
                  c.compareValue, c.baselineValue, c.deltaValue, c.deltaRate,
                  ComputeContribution(c.deltaValue, parentDelta, eps),
                  ComputeContribution(c.deltaValue, rootDelta, eps),
                  dims, children))
  }

  function AssembleChildren(cs: seq<NodeComputation>, rootDelta: real, parentDelta: real, p: Period, env: Env)
    : (r: Result<seq<ResultNode>, RunError>)
    ensures r.Ok? ==> |r.value| == |cs|
  {
    if cs == [] then Ok([])
    else
      var front :- AssembleChildren(cs[..|cs| - 1], rootDelta, parentDelta, p, env);
      var last :- Assemble(cs[|cs| - 1], rootDelta, parentDelta, p, env);
      Ok(front + [last])
  }

  /** The whole result tree of a computation: the root is measured against
      its own delta on both counts. */
  function AssembleResult(c: NodeComputation, p: Period, env: Env): Result<ResultNode, RunError>
  {
    Assemble(c, c.deltaValue, c.deltaValue, p, env)
  }

  /** The result node carries the computation's node and values, with the
      compare value as the current value, and mirrors its children. */
  ghost predicate Mirrors(res: ResultNode, c: NodeComputation) {
    && res.nodeId == c.node.nodeId && res.nodeName == c.node.nodeName && res.metricId == c.node.metricId
    && res.isRate == c.node.isRate && res.op == c.node.op
    && res.currentValue == c.compareValue && res.baselineValue == c.baselineValue
    && res.deltaValue == c.deltaValue && res.deltaRate == c.deltaRate
    && |res.children| == |c.children|
    && forall i :: 0 <= i < |c.children| ==> Mirrors(res.children[i], c.children[i])
  }

  /** Each node's local contribution is against its parent's delta and its
      global one against the root's. */
  ghost predicate Measured(res: ResultNode, c: NodeComputation, rootDelta: real, parentDelta: real, eps: real)
    requires 0.0 < eps
  {
    && |res.children| == |c.children|
    && res.contributionLocal == ComputeContribution(c.deltaValue, parentDelta, eps)
    && res.contributionGlobal == ComputeContribution(c.deltaValue, rootDelta, eps)
    && forall i :: 0 <= i < |c.children| ==> Measured(res.children[i], c.children[i], rootDelta, c.deltaValue, eps)
  }

  /** Each node's items are its own dimension attribution. */
  ghost predicate Attributed(res: ResultNode, c: NodeComputation, p: Period, env: Env)
  {
    && |res.children| == |c.children|
    && NodeDimensionAttribution(c, p, env) == Ok(res.dimensionAttribution)
    && forall i :: 0 <= i < |c.children| ==> Attributed(res.children[i], c.children[i], p, env)
  }

  /** Every node's dimension attribution succeeds. */
  ghost predicate AllAttributable(c: NodeComputation, p: Period, env: Env)
  {
    && NodeDimensionAttribution(c, p, env).Ok?
    && forall i :: 0 <= i < |c.children| ==> AllAttributable(c.children[i], p, env)
  }

  lemma {:induction false} AssembleMirrors(c: NodeComputation, rootDelta: real, parentDelta: real, p: Period, env: Env)
    requires Assemble(c, rootDelta, parentDelta, p, env).Ok?
    ensures Mirrors(Assemble(c, rootDelta, parentDelta, p, env).value, c)
    ensures Measured(Assemble(c, rootDelta, parentDelta, p, env).value, c, rootDelta, parentDelta, env.config.epsilon)
    ensures Attributed(Assemble(c, rootDelta, parentDelta, p, env).value, c, p, env)
    decreases c, 1
  {
    ChildrenMirror(c.children, rootDelta, c.deltaValue, p, env);
  }

  lemma {:induction false} ChildrenMirror(cs: seq<NodeComputation>, rootDelta: real, parentDelta: real, p: Period, env: Env)
    requires AssembleChildren(cs, rootDelta, parentDelta, p, env).Ok?
    ensures var rs := AssembleChildren(cs, rootDelta, parentDelta, p, env).value;
            forall i :: 0 <= i < |cs| ==>
              && Mirrors(rs[i], cs[i])
              && Measured(rs[i], cs[i], rootDelta, parentDelta, env.config.epsilon)
              && Attributed(rs[i], cs[i], p, env)
    decreases cs, 0
  {
    if cs != [] {
      var front := cs[..|cs| - 1];
      ChildrenMirror(front, rootDelta, parentDelta, p, env);
      AssembleMirrors(cs[|cs| - 1], rootDelta, parentDelta, p, env);
    }
  }

  /** Assembly fails exactly when some node's dimension attribution fails. */
  lemma {:induction false} AssembleSucceedsIff(c: NodeComputation, rootDelta: real, parentDelta: real, p: Period, env: Env)
    ensures Assemble(c, rootDelta, parentDelta, p, env).Ok? <==> AllAttributable(c, p, env)
    decreases c, 1
  {
    ChildrenSucceedIff(c.children, rootDelta, c.deltaValue, p, env);
  }

  lemma {:induction false} ChildrenSucceedIff(cs: seq<NodeComputation>, rootDelta: real, parentDelta: real,
                                              p: Period, env: Env)
    ensures AssembleChildren(cs, rootDelta, parentDelta, p, env).Ok? <==>
            forall i :: 0 <= i < |cs| ==> AllAttributable(cs[i], p, env)
    decreases cs, 0
  {
    if cs != [] {
      var front := cs[..|cs| - 1];
      ChildrenSucceedIff(front, rootDelta, parentDelta, p, env);
      AssembleSucceedsIff(cs[|cs| - 1], rootDelta, parentDelta, p, env);
      assert forall i :: 0 <= i < |front| ==> front[i] == cs[i];
    }
  }

  /** The root is measured against its own delta twice, so its local and
      global contributions are equal: 1 or -1 by the sign of its delta, or 0
      when the delta is within epsilon of 0. */
  lemma RootContribution(c: NodeComputation, p: Period, env: Env)
    requires AssembleResult(c, p, env).Ok?
    ensures AssembleResult(c, p, env).value.contributionLocal == AssembleResult(c, p, env).value.contributionGlobal
    ensures AssembleResult(c, p, env).value.contributionLocal ==
            (if Abs(c.deltaValue) < env.config.epsilon then 0.0 else if 0.0 < c.deltaValue then 1.0 else -1.0)
  {
    AssembleMirrors(c, c.deltaValue, c.deltaValue, p, env);
    OwnContribution(c.deltaValue, env.config.epsilon);
  }

  /** The local contributions of a node's children, in order. */
  function LocalContributions(rs: seq<ResultNode>): (r: seq<real>)
    ensures |r| == |rs|
    ensures forall i :: 0 <= i < |rs| ==> r[i] == rs[i].contributionLocal
  {
    seq(|rs|, i requires 0 <= i < |rs| => rs[i].contributionLocal)
  }

  /** When the children's deltas add up to the node's delta (as for an ADD
      node), their local contributions add up to the node's own
      contribution against itself: 1, -1 or 0. */
  lemma ChildSharesAddUp(c: NodeComputation, rootDelta: real, parentDelta: real, p: Period, env: Env)
    requires Assemble(c, rootDelta, parentDelta, p, env).Ok?
    requires c.deltaValue == Sum(Deltas(c.children))
    ensures Sum(LocalContributions(Assemble(c, rootDelta, parentDelta, p, env).value.children))
            == ComputeContribution(c.deltaValue, c.deltaValue, env.config.epsilon)
  {
    var eps := env.config.epsilon;
    var res := Assemble(c, rootDelta, parentDelta, p, env).value;
    AssembleMirrors(c, rootDelta, parentDelta, p, env);
    var ds := Deltas(c.children);
    ContributionsOfSum(ds, c.deltaValue, eps);
    assert LocalContributions(res.children)
        == seq(|ds|, i requires 0 <= i < |ds| => ComputeContribution(ds[i], c.deltaValue, eps));
  }
}
