/** NodeMetricComputationEngine: the children-first walk over the metric tree
    that gives every node its baseline, compare, delta and delta rate.

    Values are exact reals: the DECIMAL64 rounding of the source is not
    modelled. `Math.log` is the parameter `ln`; the exactness lemmas require
    only the logarithm law `IsLog(ln)`. The engine's epsilon is the parameter
    `eps`, a positive configuration constant. */
module NodeMetricEngine {
  import opened Wrappers
  import opened JavaStrings
  import opened Sums
  import opened MetricTree

  datatype OperationType = ADD | SUB | MUL | DIV

  function OperationName(op: OperationType): string {
    match op
    case ADD => "ADD"
    case SUB => "SUB"
    case MUL => "MUL"
    case DIV => "DIV"
  }

  /** The pre-fetched baseline and compare value of one metric. */
  datatype MetricValue = MetricValue(baselineValue: real, compareValue: real)

  /** The computed counterpart of one configured node. */
  datatype NodeComputation = NodeComputation(
    node: MetricTreeNode,
    compareValue: real,
    baselineValue: real,
    deltaValue: real,
    deltaRate: real,
    children: seq<NodeComputation>)

  /** The two exceptions the walk can raise: IllegalStateException for a leaf
      without a value, IllegalArgumentException from `OperationType.valueOf`. */
  datatype EngineError =
    | MissingMetricValue(metricId: Option<string>)
    | NoEnumConstant(name: string)

  /** `Optional.ofNullable(op).map(toUpperCase).map(valueOf).orElse(ADD)`. */
  function ParseOperation(op: Option<string>): (r: Result<OperationType, EngineError>)
    ensures op.None? ==> r == Ok(ADD)
    ensures op.Some? && r.Ok? ==> OperationName(r.value) == ToUpper(op.value)
    ensures op.Some? && r.Err? ==> r.error == NoEnumConstant(ToUpper(op.value))
    ensures op.Some? ==> (r.Ok? <==> exists k :: ToUpper(op.value) == OperationName(k))
  {
    match op
    case None => Ok(ADD)
    case Some(s) =>
      var name := ToUpper(s);
      if name == "ADD" then Ok(ADD)
      else if name == "SUB" then Ok(SUB)
      else if name == "MUL" then Ok(MUL)
      else if name == "DIV" then Ok(DIV)
      else
        assert forall k :: name != OperationName(k);
        Err(NoEnumConstant(name))
  }

  /** The operation a node is computed with: leaves are always ADD. */
  function NodeOperation(node: MetricTreeNode): Result<OperationType, EngineError> {
    if node.IsLeaf() then Ok(ADD) else ParseOperation(node.op)
  }

  // ---------------------------------------------------------------------
  // Aggregation of the children's values

  function Pick(c: NodeComputation, useCompareValue: bool): real {
    if useCompareValue then c.compareValue else c.baselineValue
  }

  /** The children's compare (or baseline) values, in order. */
  function Values(children: seq<NodeComputation>, useCompareValue: bool): (r: seq<real>)
    ensures |r| == |children|
    ensures forall i :: 0 <= i < |children| ==> r[i] == Pick(children[i], useCompareValue)
  {
    seq(|children|, i requires 0 <= i < |children| => Pick(children[i], useCompareValue))
  }

  /** Each child's own compare - baseline. */
  function Diffs(children: seq<NodeComputation>): (r: seq<real>)
    ensures |r| == |children|
    ensures forall i :: 0 <= i < |children| ==> r[i] == children[i].compareValue - children[i].baselineValue
  {
    seq(|children|, i requires 0 <= i < |children| => children[i].compareValue - children[i].baselineValue)
  }

  /** Each child's computed delta. */
  function Deltas(children: seq<NodeComputation>): (r: seq<real>)
    ensures |r| == |children|
    ensures forall i :: 0 <= i < |children| ==> r[i] == children[i].deltaValue
  {
    seq(|children|, i requires 0 <= i < |children| => children[i].deltaValue)
  }

  /** ADD: the sum of the children. */
  function AddAggregate(children: seq<NodeComputation>, useCompareValue: bool): real {
    Sum(Values(children, useCompareValue))
  }

  /** SUB: the first child minus all the others; 0 without children. */
  function SubtractAggregate(children: seq<NodeComputation>, useCompareValue: bool): real {
    if children == [] then 0.0
    else Pick(children[0], useCompareValue) - Sum(Values(children[1..], useCompareValue))
  }

  /** MUL: the product of the children; 0 without children. */
  function MultiplyAggregate(children: seq<NodeComputation>, useCompareValue: bool): real {
    if children == [] then 0.0 else Product(Values(children, useCompareValue))
  }

  /** DIV: the first child over the second, further children ignored; 0 with
      fewer than two children or a denominator within eps of zero. */
  function DivideAggregate(children: seq<NodeComputation>, useCompareValue: bool, eps: real): (r: real)
    requires 0.0 < eps
    ensures |children| < 2 ==> r == 0.0
    ensures 2 <= |children| && Abs(Pick(children[1], useCompareValue)) < eps ==> r == 0.0
    ensures 2 <= |children| && Abs(Pick(children[1], useCompareValue)) >= eps ==>
      r * Pick(children[1], useCompareValue) == Pick(children[0], useCompareValue)
  {
    if |children| < 2 then 0.0
    else
      var denominator := Pick(children[1], useCompareValue);
      if Abs(denominator) < eps then 0.0 else Pick(children[0], useCompareValue) / denominator
  }

  function Aggregate(op: OperationType, children: seq<NodeComputation>, useCompareValue: bool, eps: real): real
    requires 0.0 < eps
  {
    match op
    case ADD => AddAggregate(children, useCompareValue)
    case SUB => SubtractAggregate(children, useCompareValue)
    case MUL => MultiplyAggregate(children, useCompareValue)
    case DIV => DivideAggregate(children, useCompareValue, eps)
  }

  /** One more child extends the children's sum and product by its value. */
  lemma ValuesSnoc(children: seq<NodeComputation>, lo: nat, hi: nat, useCompareValue: bool)
    requires lo < hi <= |children|
    ensures Sum(Values(children[lo..hi], useCompareValue))
            == Sum(Values(children[lo..hi - 1], useCompareValue)) + Pick(children[hi - 1], useCompareValue)
    ensures Product(Values(children[lo..hi], useCompareValue))
            == Product(Values(children[lo..hi - 1], useCompareValue)) * Pick(children[hi - 1], useCompareValue)
  {
    var v := Values(children[lo..hi], useCompareValue);
    assert v[..|v| - 1] == Values(children[lo..hi - 1], useCompareValue);
  }

  /** aggregateSubtract: the loop subtracts the later children one by one. */
  method AggregateSubtract(children: seq<NodeComputation>, useCompareValue: bool) returns (result: real)
    ensures result == SubtractAggregate(children, useCompareValue)
  {
    if children == [] {
      return 0.0;
    }
    result := Pick(children[0], useCompareValue);
    var i := 1;
    while i < |children|
      invariant 1 <= i <= |children|
      invariant result == Pick(children[0], useCompareValue) - Sum(Values(children[1..i], useCompareValue))
    {
      ValuesSnoc(children, 1, i + 1, useCompareValue);
      result := result - Pick(children[i], useCompareValue);
      i := i + 1;
    }
    assert children[1..i] == children[1..];
  }

  /** aggregateMultiply: the loop multiplies a running product, from one. */
  method AggregateMultiply(children: seq<NodeComputation>, useCompareValue: bool) returns (product: real)
    ensures product == MultiplyAggregate(children, useCompareValue)
  {
    if children == [] {
      return 0.0;
    }
    product := 1.0;
    var i := 0;
    while i < |children|
      invariant 0 <= i <= |children|
      invariant product == Product(Values(children[..i], useCompareValue))
    {
      ValuesSnoc(children, 0, i + 1, useCompareValue);
      assert children[0..i + 1] == children[..i + 1] && children[0..i] == children[..i];
      product := product * Pick(children[i], useCompareValue);
      i := i + 1;
    }
    assert children[..i] == children;
  }

  // ---------------------------------------------------------------------
  // Delta strategies

  /** sanitizeValue: non-positive values are replaced by eps before a logarithm. */
  function Sanitize(value: real, eps: real): (r: real)
    ensures 0.0 < value ==> r == value
    ensures value <= 0.0 ==> r == eps
    ensures 0.0 < eps ==> 0.0 < r
  {
    if value <= 0.0 then eps else value
  }

  /** logMean: the logarithmic mean L(a, b) = (a - b) / (ln a - ln b) of the
      sanitized values; a itself when a == b, and 0 when the logarithms are
      closer than eps. */
  function LogMean(a: real, b: real, eps: real, ln: real -> real): (r: real)
    requires 0.0 < eps
    ensures a == b ==> r == a
    ensures a != b && Abs(ln(Sanitize(a, eps)) - ln(Sanitize(b, eps))) < eps ==> r == 0.0
  {
    if a == b then a
    else
      var safeA := Sanitize(a, eps);
      var safeB := Sanitize(b, eps);
      var denominator := ln(safeA) - ln(safeB);
      if Abs(denominator) < eps then 0.0 else (safeA - safeB) / denominator
  }

  /** Away from the two special cases the log mean is the quotient: times
      the log difference of the sanitized values it gives their difference. */
  lemma LogMeanInverse(a: real, b: real, eps: real, ln: real -> real)
    requires 0.0 < eps && a != b && Abs(ln(Sanitize(a, eps)) - ln(Sanitize(b, eps))) >= eps
    ensures LogMean(a, b, eps, ln) * (ln(Sanitize(a, eps)) - ln(Sanitize(b, eps))) == Sanitize(a, eps) - Sanitize(b, eps)
  {
  }

  /** ln(compare) - ln(baseline) of one child, both sanitized. */
  function LogChange(c: NodeComputation, eps: real, ln: real -> real): real {
    ln(Sanitize(c.compareValue, eps)) - ln(Sanitize(c.baselineValue, eps))
  }

  function LogChanges(children: seq<NodeComputation>, eps: real, ln: real -> real): (r: seq<real>)
    ensures |r| == |children|
    ensures forall i :: 0 <= i < |children| ==> r[i] == LogChange(children[i], eps, ln)
  {
    seq(|children|, i requires 0 <= i < |children| => LogChange(children[i], eps, ln))
  }

  /** DifferenceDeltaStrategy (ADD and leaves). */
  function DifferenceDelta(baselineValue: real, compareValue: real): real {
    compareValue - baselineValue
  }

  /** SubtractionDeltaStrategy: the first child's compare - baseline minus
      every other child's. */
  function SubtractionDeltaOf(baselineValue: real, compareValue: real, children: seq<NodeComputation>): real {
    if children == [] then compareValue - baselineValue
    else Diffs(children)[0] - Sum(Diffs(children[1..]))
  }

  /** LmdiDeltaStrategy: L(baseline, compare) times the sum of the children's
      log-changes. */
  function LmdiDeltaOf(baselineValue: real, compareValue: real, children: seq<NodeComputation>,
                       eps: real, ln: real -> real): real
    requires 0.0 < eps
  {
    if children == [] || compareValue == baselineValue then compareValue - baselineValue
    else LogMean(baselineValue, compareValue, eps, ln) * Sum(LogChanges(children, eps, ln))
  }

  /** RatioDeltaStrategy: L(baseline, compare) times the numerator's
      log-change minus the denominator's. */
  function RatioDeltaOf(baselineValue: real, compareValue: real, children: seq<NodeComputation>,
                        eps: real, ln: real -> real): real
    requires 0.0 < eps
  {
    if |children| < 2 then compareValue - baselineValue
    else
      LogMean(baselineValue, compareValue, eps, ln) *
        (LogChange(children[0], eps, ln) - LogChange(children[1], eps, ln))
  }

  /** The per-child contributions the ratio strategy logs. */
  function RatioContributions(baselineValue: real, compareValue: real, children: seq<NodeComputation>,
                              eps: real, ln: real -> real): (real, real)
    requires 0.0 < eps && 2 <= |children|
  {
    var l := LogMean(baselineValue, compareValue, eps, ln);
    (l * LogChange(children[0], eps, ln), l * -LogChange(children[1], eps, ln))
  }

  function DeltaOf(op: OperationType, baselineValue: real, compareValue: real,
                   children: seq<NodeComputation>, eps: real, ln: real -> real): real
    requires 0.0 < eps
  {
    match op
    case ADD => DifferenceDelta(baselineValue, compareValue)
    case SUB => SubtractionDeltaOf(baselineValue, compareValue, children)
    case MUL => LmdiDeltaOf(baselineValue, compareValue, children, eps, ln)
    case DIV => RatioDeltaOf(baselineValue, compareValue, children, eps, ln)
  }

  lemma DiffsSnoc(children: seq<NodeComputation>, lo: nat, hi: nat)
    requires lo < hi <= |children|
    ensures Sum(Diffs(children[lo..hi]))
            == Sum(Diffs(children[lo..hi - 1])) + (children[hi - 1].compareValue - children[hi - 1].baselineValue)
  {
    var v := Diffs(children[lo..hi]);
    assert v[..|v| - 1] == Diffs(children[lo..hi - 1]);
  }

  lemma LogChangesSnoc(children: seq<NodeComputation>, hi: nat, eps: real, ln: real -> real)
    requires 0 < hi <= |children|
    ensures Sum(LogChanges(children[..hi], eps, ln))
            == Sum(LogChanges(children[..hi - 1], eps, ln)) + LogChange(children[hi - 1], eps, ln)
  {
    var v := LogChanges(children[..hi], eps, ln);
    assert v[..|v| - 1] == LogChanges(children[..hi - 1], eps, ln);
  }

  /** SubtractionDeltaStrategy.computeDelta: the loop adds the first child's
      difference and subtracts the others'. */
  method SubtractionDelta(baselineValue: real, compareValue: real, children: seq<NodeComputation>)
    returns (delta: real)
    ensures delta == SubtractionDeltaOf(baselineValue, compareValue, children)
  {
    if children == [] {
      return compareValue - baselineValue;
    }
    delta := 0.0;
    var i := 0;
    while i < |children|
      invariant 0 <= i <= |children|
      invariant i == 0 ==> delta == 0.0
      invariant 0 < i ==> delta == Diffs(children)[0] - Sum(Diffs(children[1..i]))
    {
      var childDelta := children[i].compareValue - children[i].baselineValue;
      if 0 < i {
        DiffsSnoc(children, 1, i + 1);
      }
      delta := delta + if i == 0 then childDelta else -childDelta;
      i := i + 1;
    }
    assert children[1..i] == children[1..];
  }

  /** LmdiDeltaStrategy.computeDelta: the loop sums the children's
      log-changes. */
  method LmdiDelta(baselineValue: real, compareValue: real, children: seq<NodeComputation>,
                   eps: real, ln: real -> real)
    returns (delta: real)
    requires 0.0 < eps
    ensures delta == LmdiDeltaOf(baselineValue, compareValue, children, eps, ln)
  {
    if children == [] || compareValue == baselineValue {
      return compareValue - baselineValue;
    }
    var logMeanValue := LogMean(baselineValue, compareValue, eps, ln);
    var logChangeSum := SumLogChanges(children, eps, ln);
    delta := logMeanValue * logChangeSum;
  }

  /** The loop of LmdiDeltaStrategy.computeDelta: the children's log-changes,
      added up in order. */
  method SumLogChanges(children: seq<NodeComputation>, eps: real, ln: real -> real) returns (logChangeSum: real)
    ensures logChangeSum == Sum(LogChanges(children, eps, ln))
  {
    logChangeSum := 0.0;
    var i := 0;
    while i < |children|
      invariant 0 <= i <= |children|
      invariant logChangeSum == Sum(LogChanges(children[..i], eps, ln))
    {
      LogChangesSnoc(children, i + 1, eps, ln);
      assert children[..i + 1][..i] == children[..i];
      logChangeSum := logChangeSum + LogChange(children[i], eps, ln);
      i := i + 1;
    }
    assert children[..i] == children;
  }

  /** deltaRate = delta / max(|baseline|, eps), and 0 when that maximum is 0. */
  function DeltaRate(deltaValue: real, baselineValue: real, eps: real): (r: real)
    ensures Max(Abs(baselineValue), eps) == 0.0 ==> r == 0.0
  {
    var denominator := Max(Abs(baselineValue), eps);
    if denominator == 0.0 then 0.0 else deltaValue / denominator
  }

  /** A non-zero denominator: the rate times max(|baseline|, eps) is the
      delta. */
  lemma DeltaRateInverse(deltaValue: real, baselineValue: real, eps: real)
    requires Max(Abs(baselineValue), eps) != 0.0
    ensures DeltaRate(deltaValue, baselineValue, eps) * Max(Abs(baselineValue), eps) == deltaValue
  {
  }

  // ---------------------------------------------------------------------
  // The tree walk

  /** The computation of one node from its already computed children. */
  function Build(node: MetricTreeNode, op: OperationType, baselineValue: real, compareValue: real,
                 children: seq<NodeComputation>, eps: real, ln: real -> real): NodeComputation
    requires 0.0 < eps
  {
    var delta := DeltaOf(op, baselineValue, compareValue, children, eps, ln);
    NodeComputation(node, compareValue, baselineValue, delta, DeltaRate(delta, baselineValue, eps), children)
  }

  /** computeNode: children first, in order; the first exception aborts. */
  function Compute(node: MetricTreeNode, values: map<string, MetricValue>, eps: real, ln: real -> real)
    : Result<NodeComputation, EngineError>
    requires 0.0 < eps
  {
    match ComputeChildren(node.children, values, eps, ln)
    case Err(e) => Err(e)
    case Ok(children) => Combine(node, children, values, eps, ln)
  }

  /** The node's own computation once its children are computed: a leaf reads
      its metric value, an inner node aggregates its children by its
      operation. */
  function Combine(node: MetricTreeNode, children: seq<NodeComputation>, values: map<string, MetricValue>,
                   eps: real, ln: real -> real)
    : Result<NodeComputation, EngineError>
    requires 0.0 < eps
  {
    if children == [] then
      if node.metricId.None? || node.metricId.value !in values then Err(MissingMetricValue(node.metricId))
      else
        var mv := values[node.metricId.value];
        Ok(Build(node, ADD, mv.baselineValue, mv.compareValue, children, eps, ln))
    else
      match ParseOperation(node.op)
      case Err(e) => Err(e)
      case Ok(op) =>
        Ok(Build(node, op, Aggregate(op, children, false, eps), Aggregate(op, children, true, eps), children, eps, ln))
  }

  /** The children of one node, computed in order. */
  function ComputeChildren(nodes: seq<MetricTreeNode>, values: map<string, MetricValue>, eps: real, ln: real -> real)
    : (r: Result<seq<NodeComputation>, EngineError>)
    requires 0.0 < eps
    ensures r.Ok? ==> |r.value| == |nodes|
  {
    if nodes == [] then Ok([])
    else
      match ComputeChildren(nodes[..|nodes| - 1], values, eps, ln)
      case Err(e) => Err(e)
      case Ok(done) =>
        match Compute(nodes[|nodes| - 1], values, eps, ln)
        case Err(e) => Err(e)
        case Ok(last) => Ok(done + [last])
  }

  /** A child list is computed when its front and its last child are, and
      then its computations are theirs. */
  lemma ChildrenUnfold(nodes: seq<MetricTreeNode>, values: map<string, MetricValue>, eps: real, ln: real -> real)
    requires 0.0 < eps && nodes != []
    ensures var front, last := ComputeChildren(nodes[..|nodes| - 1], values, eps, ln), Compute(nodes[|nodes| - 1], values, eps, ln);
            && (ComputeChildren(nodes, values, eps, ln).Ok? <==> front.Ok? && last.Ok?)
            && (ComputeChildren(nodes, values, eps, ln).Ok? ==> ComputeChildren(nodes, values, eps, ln).value == front.value + [last.value])
  {
  }

  /** An exception in an earlier child aborts the whole child list. */
  lemma {:induction false} ChildrenErrorPropagates(nodes: seq<MetricTreeNode>, k: nat,
                                                   values: map<string, MetricValue>, eps: real, ln: real -> real)
    requires 0.0 < eps && k <= |nodes|
    requires ComputeChildren(nodes[..k], values, eps, ln).Err?
    ensures ComputeChildren(nodes, values, eps, ln) == ComputeChildren(nodes[..k], values, eps, ln)
    decreases |nodes| - k
  {
    if k < |nodes| {
      var front := nodes[..|nodes| - 1];
      assert front[..k] == nodes[..k];
      ChildrenErrorPropagates(front, k, values, eps, ln);
      assert ComputeChildren(front, values, eps, ln).Err?;
    } else {
      assert nodes[..k] == nodes;
    }
  }

  /** computeNode as the source runs it: the children are computed into a list
      by a loop, then the node's values are aggregated and its delta taken by
      the strategy of its operation. */
  method ComputeNode(node: MetricTreeNode, values: map<string, MetricValue>, eps: real, ln: real -> real)
    returns (r: Result<NodeComputation, EngineError>)
    requires 0.0 < eps
    ensures r == Compute(node, values, eps, ln)
    decreases node
  {
    var children: seq<NodeComputation> := [];
    var i := 0;
    while i < |node.children|
      invariant 0 <= i <= |node.children|
      invariant ComputeChildren(node.children[..i], values, eps, ln) == Ok(children)
    {
      var child := ComputeNode(node.children[i], values, eps, ln);
      assert node.children[..i + 1][..i] == node.children[..i];
      ChildrenUnfold(node.children[..i + 1], values, eps, ln);
      if child.Err? {
        ChildrenErrorPropagates(node.children, i + 1, values, eps, ln);
        return Err(child.error);
      }
      children := children + [child.value];
      i := i + 1;
    }
    assert node.children[..i] == node.children;
    r := CombineNode(node, children, values, eps, ln);
  }

  /** The rest of computeNode: the node's values are aggregated from its
      children's and its delta taken by the strategy of its operation. */
  method CombineNode(node: MetricTreeNode, children: seq<NodeComputation>, values: map<string, MetricValue>,
                     eps: real, ln: real -> real)
    returns (r: Result<NodeComputation, EngineError>)
    requires 0.0 < eps
    ensures r == Combine(node, children, values, eps, ln)
  {
    var baselineValue: real, compareValue: real, op: OperationType;
    if children == [] {
      if node.metricId.None? || node.metricId.value !in values {
        return Err(MissingMetricValue(node.metricId));
      }
      var mv := values[node.metricId.value];
      baselineValue, compareValue, op := mv.baselineValue, mv.compareValue, ADD;
    } else {
      var parsed := ParseOperation(node.op);
      if parsed.Err? {
        return Err(parsed.error);
      }
      op := parsed.value;
      match op {
        case ADD =>
          baselineValue, compareValue := AddAggregate(children, false), AddAggregate(children, true);
        case SUB =>
          baselineValue := AggregateSubtract(children, false);
          compareValue := AggregateSubtract(children, true);
        case MUL =>
          baselineValue := AggregateMultiply(children, false);
          compareValue := AggregateMultiply(children, true);
        case DIV =>
          baselineValue, compareValue := DivideAggregate(children, false, eps), DivideAggregate(children, true, eps);
      }
    }

    var deltaValue: real;
    match op {
      case ADD => deltaValue := DifferenceDelta(baselineValue, compareValue);
      case SUB => deltaValue := SubtractionDelta(baselineValue, compareValue, children);
      case MUL => deltaValue := LmdiDelta(baselineValue, compareValue, children, eps, ln);
      case DIV => deltaValue := RatioDeltaOf(baselineValue, compareValue, children, eps, ln);
    }
    var deltaRate := DeltaRate(deltaValue, baselineValue, eps);
    r := Ok(NodeComputation(node, compareValue, baselineValue, deltaValue, deltaRate, children));
  }
}
