/** What the node computation promises: the output tree mirrors the
    configuration, it fails exactly when a leaf lacks a value or an operation
    name is unknown, and each decomposition strategy is exact. */
module NodeMetricEngineLemmas {
  import opened Wrappers
  import opened Sums
  import opened MetricTree
  import opened NodeMetricEngine
  import opened JavaStrings

  /** One computation per configured node, children in the same order. */
  ghost predicate Mirrors(node: MetricTreeNode, nc: NodeComputation) {
    && nc.node == node
    && |nc.children| == |node.children|
    && forall i :: 0 <= i < |node.children| ==> Mirrors(node.children[i], nc.children[i])
  }

  /** Every leaf has a value and every combinator a known operation name. */
  ghost predicate Computable(node: MetricTreeNode, values: map<string, MetricValue>) {
    if node.IsLeaf() then node.metricId.Some? && node.metricId.value in values
    else ParseOperation(node.op).Ok? && forall i :: 0 <= i < |node.children| ==> Computable(node.children[i], values)
  }

  lemma {:induction false} ComputeMirrors(node: MetricTreeNode, values: map<string, MetricValue>, eps: real, ln: real -> real)
    requires 0.0 < eps && Compute(node, values, eps, ln).Ok?
    ensures Mirrors(node, Compute(node, values, eps, ln).value)
    decreases node
  {
    ChildrenMirror(node.children, values, eps, ln);
  }

  lemma {:induction false} ChildrenMirror(nodes: seq<MetricTreeNode>, values: map<string, MetricValue>, eps: real, ln: real -> real)
    requires 0.0 < eps && ComputeChildren(nodes, values, eps, ln).Ok?
    ensures var cs := ComputeChildren(nodes, values, eps, ln).value;
            |cs| == |nodes| && forall i :: 0 <= i < |nodes| ==> Mirrors(nodes[i], cs[i])
    decreases nodes
  {
    if nodes != [] {
      var n := |nodes| - 1;
      var front := nodes[..n];
      ChildrenUnfold(nodes, values, eps, ln);
      ChildrenMirror(front, values, eps, ln);
      ComputeMirrors(nodes[n], values, eps, ln);
      var cs, fs := ComputeChildren(nodes, values, eps, ln).value, ComputeChildren(front, values, eps, ln).value;
      forall i | 0 <= i < |nodes| ensures Mirrors(nodes[i], cs[i]) {
        if i < n {
          assert nodes[i] == front[i] && cs[i] == fs[i];
        }
      }
    }
  }

  /** The walk succeeds exactly on computable trees: a missing value anywhere,
      or an unknown operation on any combinator, aborts the whole tree. */
  lemma {:induction false} ComputeSucceedsIff(node: MetricTreeNode, values: map<string, MetricValue>, eps: real, ln: real -> real)
    requires 0.0 < eps
    ensures Compute(node, values, eps, ln).Ok? <==> Computable(node, values)
    decreases node
  {
    ChildrenSucceedIff(node.children, values, eps, ln);
  }

  lemma {:induction false} ChildrenSucceedIff(nodes: seq<MetricTreeNode>, values: map<string, MetricValue>, eps: real, ln: real -> real)
    requires 0.0 < eps
    ensures ComputeChildren(nodes, values, eps, ln).Ok? <==> forall i :: 0 <= i < |nodes| ==> Computable(nodes[i], values)
    decreases nodes
  {
    if nodes != [] {
      var n := |nodes| - 1;
      var front := nodes[..n];
      ChildrenUnfold(nodes, values, eps, ln);
      ChildrenSucceedIff(front, values, eps, ln);
      ComputeSucceedsIff(nodes[n], values, eps, ln);
      AllComputableSnoc(nodes, values);
    }
  }

  lemma AllComputableSnoc(nodes: seq<MetricTreeNode>, values: map<string, MetricValue>)
    requires nodes != []
    ensures var n := |nodes| - 1;
            (forall i :: 0 <= i < |nodes| ==> Computable(nodes[i], values))
            <==> (forall i :: 0 <= i < n ==> Computable(nodes[..n][i], values)) && Computable(nodes[n], values)
  {
    var n := |nodes| - 1;
    assert forall i :: 0 <= i < n ==> nodes[..n][i] == nodes[i];
  }

  /** One more successfully computed child extends the computed list. */
  lemma ChildrenSnoc(front: seq<MetricTreeNode>, last: MetricTreeNode,
                     values: map<string, MetricValue>, eps: real, ln: real -> real)
    requires 0.0 < eps
    requires ComputeChildren(front, values, eps, ln).Ok? && Compute(last, values, eps, ln).Ok?
    ensures ComputeChildren(front + [last], values, eps, ln)
            == Ok(ComputeChildren(front, values, eps, ln).value + [Compute(last, values, eps, ln).value])
  {
    assert (front + [last])[..|front|] == front;
  }

  /** A leaf takes baseline and compare from the value of its metric and is
      computed as ADD; without a value the computation throws. */
  lemma LeafTakesItsMetricValue(node: MetricTreeNode, values: map<string, MetricValue>, eps: real, ln: real -> real)
    requires 0.0 < eps && node.IsLeaf()
    ensures node.metricId.None? || node.metricId.value !in values ==>
      Compute(node, values, eps, ln) == Err(MissingMetricValue(node.metricId))
    ensures node.metricId.Some? && node.metricId.value in values ==>
      var mv := values[node.metricId.value];
      && Compute(node, values, eps, ln).Ok?
      && Compute(node, values, eps, ln).value.baselineValue == mv.baselineValue
      && Compute(node, values, eps, ln).value.compareValue == mv.compareValue
      && Compute(node, values, eps, ln).value.deltaValue == mv.compareValue - mv.baselineValue
      && Compute(node, values, eps, ln).value.children == []
  {
  }

  /** The values of a computed combinator come from its children under its
      operation, not from its own metric. */
  lemma CombinatorAggregatesChildren(node: MetricTreeNode, values: map<string, MetricValue>, eps: real, ln: real -> real)
    requires 0.0 < eps && !node.IsLeaf() && Compute(node, values, eps, ln).Ok?
    ensures NodeOperation(node).Ok?
    ensures var nc := Compute(node, values, eps, ln).value;
            var op := NodeOperation(node).value;
            && nc.baselineValue == Aggregate(op, nc.children, false, eps)
            && nc.compareValue == Aggregate(op, nc.children, true, eps)
            && nc.deltaValue == DeltaOf(op, nc.baselineValue, nc.compareValue, nc.children, eps, ln)
  {
  }

  /** For ADD, SUB and leaves the delta is compare - baseline: the SUB
      strategy's signed sum of child differences is the difference of the
      SUB aggregates. */
  lemma {:induction false} AdditiveDeltaIsDifference(node: MetricTreeNode, values: map<string, MetricValue>, eps: real, ln: real -> real)
    requires 0.0 < eps && Compute(node, values, eps, ln).Ok?
    requires NodeOperation(node) == Ok(ADD) || NodeOperation(node) == Ok(SUB)
    ensures var nc := Compute(node, values, eps, ln).value;
            nc.deltaValue == nc.compareValue - nc.baselineValue
  {
    var nc := Compute(node, values, eps, ln).value;
    if node.IsLeaf() {
      LeafTakesItsMetricValue(node, values, eps, ln);
    } else {
      CombinatorAggregatesChildren(node, values, eps, ln);
      if NodeOperation(node) == Ok(SUB) {
        ChildrenMirror(node.children, values, eps, ln);
        SubtractionDeltaIsDifference(nc.children);
      }
    }
  }

  /** The SUB strategy's delta over the SUB aggregates is their difference. */
  lemma SubtractionDeltaIsDifference(cs: seq<NodeComputation>)
    requires cs != []
    ensures var b, c := SubtractAggregate(cs, false), SubtractAggregate(cs, true);
            SubtractionDeltaOf(b, c, cs) == c - b
  {
    var rest := cs[1..];
    assert Diffs(cs)[1..] == Diffs(rest);
    assert Diffs(rest) == Minus(Values(rest, true), Values(rest, false));
    SumMinus(Values(rest, true), Values(rest, false));
  }

  /** An ADD node's delta is the sum of its children's own differences, hence
      the sum of their deltas whenever each child's delta is its difference. */
  lemma {:induction false} AddDeltaIsSumOfChildDeltas(node: MetricTreeNode, values: map<string, MetricValue>, eps: real, ln: real -> real)
    requires 0.0 < eps && !node.IsLeaf() && Compute(node, values, eps, ln).Ok?
    requires NodeOperation(node) == Ok(ADD)
    ensures var nc := Compute(node, values, eps, ln).value;
            nc.deltaValue == Sum(Diffs(nc.children))
    ensures var nc := Compute(node, values, eps, ln).value;
            (forall i :: 0 <= i < |nc.children| ==>
               nc.children[i].deltaValue == nc.children[i].compareValue - nc.children[i].baselineValue) ==>
            nc.deltaValue == Sum(Deltas(nc.children))
  {
    var nc := Compute(node, values, eps, ln).value;
    CombinatorAggregatesChildren(node, values, eps, ln);
    AddDeltaOfChildren(nc.children);
  }

  lemma AddDeltaOfChildren(cs: seq<NodeComputation>)
    ensures AddAggregate(cs, true) - AddAggregate(cs, false) == Sum(Diffs(cs))
    ensures (forall i :: 0 <= i < |cs| ==> cs[i].deltaValue == cs[i].compareValue - cs[i].baselineValue) ==>
            Sum(Diffs(cs)) == Sum(Deltas(cs))
  {
    assert Diffs(cs) == Minus(Values(cs, true), Values(cs, false));
    SumMinus(Values(cs, true), Values(cs, false));
    if forall i :: 0 <= i < |cs| ==> cs[i].deltaValue == cs[i].compareValue - cs[i].baselineValue {
      assert Deltas(cs) == Diffs(cs);
    }
  }

  /** The per-child LMDI contributions L * logChange that the strategy logs. */
  function LmdiContributions(baselineValue: real, compareValue: real, children: seq<NodeComputation>,
                             eps: real, ln: real -> real): seq<real>
    requires 0.0 < eps
  {
    Scale(LogMean(baselineValue, compareValue, eps, ln), LogChanges(children, eps, ln))
  }

  /** The LMDI delta is the sum of the per-child contributions. */
  lemma LmdiDeltaIsSumOfContributions(baselineValue: real, compareValue: real, children: seq<NodeComputation>,
                                      eps: real, ln: real -> real)
    requires 0.0 < eps && children != [] && compareValue != baselineValue
    ensures LmdiDeltaOf(baselineValue, compareValue, children, eps, ln)
            == Sum(LmdiContributions(baselineValue, compareValue, children, eps, ln))
  {
    var l, changes := LogMean(baselineValue, compareValue, eps, ln), LogChanges(children, eps, ln);
    SumScale(l, changes);
    assert LmdiDeltaOf(baselineValue, compareValue, children, eps, ln) == l * Sum(changes);
    assert LmdiContributions(baselineValue, compareValue, children, eps, ln) == Scale(l, changes);
  }

  predicate PositiveValues(children: seq<NodeComputation>) {
    forall i :: 0 <= i < |children| ==> 0.0 < children[i].baselineValue && 0.0 < children[i].compareValue
  }

  /** With positive children the log-changes are the logarithms' differences. */
  lemma {:induction false} LogChangesOfPositive(children: seq<NodeComputation>, eps: real, ln: real -> real)
    requires PositiveValues(children)
    ensures LogChanges(children, eps, ln) == Minus(LnAll(ln, Values(children, true)), LnAll(ln, Values(children, false)))
  {
  }

  /** LMDI exactness: over positive children and a true logarithm, the LMDI
      delta of the children's products is compare - baseline. */
  lemma {:induction false} LmdiExactOnProducts(children: seq<NodeComputation>, eps: real, ln: real -> real)
    requires 0.0 < eps && IsLog(ln) && children != [] && PositiveValues(children)
    requires var b, c := Product(Values(children, false)), Product(Values(children, true));
             b != c ==> Abs(ln(b) - ln(c)) >= eps
    ensures var b, c := Product(Values(children, false)), Product(Values(children, true));
            LmdiDeltaOf(b, c, children, eps, ln) == c - b
  {
    SumOfLogChanges(children, eps, ln);
    LmdiFromLogRatio(Product(Values(children, false)), Product(Values(children, true)), children, eps, ln);
  }

  /** Whatever b and c are, LMDI is exact once the log-changes add up to
      ln c - ln b. */
  lemma LmdiFromLogRatio(b: real, c: real, children: seq<NodeComputation>, eps: real, ln: real -> real)
    requires 0.0 < eps && 0.0 < b && 0.0 < c && children != []
    requires Sum(LogChanges(children, eps, ln)) == ln(c) - ln(b)
    requires b != c ==> Abs(ln(b) - ln(c)) >= eps
    ensures LmdiDeltaOf(b, c, children, eps, ln) == c - b
  {
    if b != c {
      LogMeanTimesLogRatio(b, c, eps, ln);
    }
  }

  /** The children's log-changes add up to the log-ratio of their products. */
  lemma SumOfLogChanges(children: seq<NodeComputation>, eps: real, ln: real -> real)
    requires IsLog(ln) && PositiveValues(children)
    ensures 0.0 < Product(Values(children, false)) && 0.0 < Product(Values(children, true))
    ensures Sum(LogChanges(children, eps, ln))
            == ln(Product(Values(children, true))) - ln(Product(Values(children, false)))
  {
    var bs, ks := Values(children, false), Values(children, true);
    ProductPositive(bs);
    ProductPositive(ks);
    LogChangesOfPositive(children, eps, ln);
    SumMinus(LnAll(ln, ks), LnAll(ln, bs));
    LnProduct(ln, ks);
    LnProduct(ln, bs);
  }

  /** L(b, c) * (ln c - ln b) recovers c - b for positive b != c whose
      logarithms are at least eps apart. */
  lemma LogMeanTimesLogRatio(b: real, c: real, eps: real, ln: real -> real)
    requires 0.0 < eps && 0.0 < b && 0.0 < c && b != c && Abs(ln(b) - ln(c)) >= eps
    ensures LogMean(b, c, eps, ln) * (ln(c) - ln(b)) == c - b
  {
    var l := LogMean(b, c, eps, ln);
    assert Sanitize(b, eps) == b && Sanitize(c, eps) == c;
    LogMeanInverse(b, c, eps, ln);
    assert l * (ln(b) - ln(c)) == b - c;
    assert l * (ln(c) - ln(b)) == -(l * (ln(b) - ln(c)));
  }

  /** The same at a computed MUL node. */
  lemma LmdiIsExact(node: MetricTreeNode, values: map<string, MetricValue>, eps: real, ln: real -> real)
    requires 0.0 < eps && IsLog(ln) && !node.IsLeaf() && Compute(node, values, eps, ln).Ok?
    requires NodeOperation(node) == Ok(MUL)
    requires PositiveValues(Compute(node, values, eps, ln).value.children)
    requires var nc := Compute(node, values, eps, ln).value;
             nc.baselineValue != nc.compareValue ==> Abs(ln(nc.baselineValue) - ln(nc.compareValue)) >= eps
    ensures var nc := Compute(node, values, eps, ln).value;
            nc.deltaValue == nc.compareValue - nc.baselineValue
  {
    CombinatorAggregatesChildren(node, values, eps, ln);
    ComputeMirrors(node, values, eps, ln);
    LmdiExactOnProducts(Compute(node, values, eps, ln).value.children, eps, ln);
  }

  /** The ratio delta splits into the numerator's and the denominator's
      contributions. */
  lemma RatioDeltaIsSumOfContributions(baselineValue: real, compareValue: real, children: seq<NodeComputation>,
                                       eps: real, ln: real -> real)
    requires 0.0 < eps && 2 <= |children|
    ensures var (numerator, denominator) := RatioContributions(baselineValue, compareValue, children, eps, ln);
            RatioDeltaOf(baselineValue, compareValue, children, eps, ln) == numerator + denominator
  {
  }

  /** Ratio exactness: over positive values, a denominator at least eps in
      both periods and a true logarithm, the ratio delta of the quotients is
      compare - baseline. */
  lemma {:induction false} RatioExactOnQuotients(children: seq<NodeComputation>, eps: real, ln: real -> real)
    requires 0.0 < eps && IsLog(ln) && 2 <= |children|
    requires 0.0 < children[0].baselineValue && 0.0 < children[0].compareValue
    requires eps <= children[1].baselineValue && eps <= children[1].compareValue
    requires var b, c := DivideAggregate(children, false, eps), DivideAggregate(children, true, eps);
             b != c ==> Abs(ln(b) - ln(c)) >= eps
    ensures var b, c := DivideAggregate(children, false, eps), DivideAggregate(children, true, eps);
            RatioDeltaOf(b, c, children, eps, ln) == c - b
  {
    var b, c := DivideAggregate(children, false, eps), DivideAggregate(children, true, eps);
    QuotientLogChange(children, eps, ln);
    if b != c {
      LogMeanTimesLogRatio(b, c, eps, ln);
      assert RatioDeltaOf(b, c, children, eps, ln) == LogMean(b, c, eps, ln) * (ln(c) - ln(b));
    }
  }

  /** The numerator's log-change minus the denominator's is the log-ratio of
      the quotients. */
  lemma QuotientLogChange(children: seq<NodeComputation>, eps: real, ln: real -> real)
    requires 0.0 < eps && IsLog(ln) && 2 <= |children|
    requires 0.0 < children[0].baselineValue && 0.0 < children[0].compareValue
    requires eps <= children[1].baselineValue && eps <= children[1].compareValue
    ensures var b, c := DivideAggregate(children, false, eps), DivideAggregate(children, true, eps);
            && 0.0 < b && 0.0 < c
            && LogChange(children[0], eps, ln) - LogChange(children[1], eps, ln) == ln(c) - ln(b)
  {
    var nb, nk := children[0].baselineValue, children[0].compareValue;
    var db, dk := children[1].baselineValue, children[1].compareValue;
    assert DivideAggregate(children, false, eps) == nb / db;
    assert DivideAggregate(children, true, eps) == nk / dk;
    LnQuotient(ln, nb, db);
    LnQuotient(ln, nk, dk);
  }

  /** The same at a computed DIV node. */
  lemma RatioIsExact(node: MetricTreeNode, values: map<string, MetricValue>, eps: real, ln: real -> real)
    requires 0.0 < eps && IsLog(ln) && !node.IsLeaf() && Compute(node, values, eps, ln).Ok?
    requires NodeOperation(node) == Ok(DIV)
    requires var cs := Compute(node, values, eps, ln).value.children;
             && 2 <= |cs| && 0.0 < cs[0].baselineValue && 0.0 < cs[0].compareValue
             && eps <= cs[1].baselineValue && eps <= cs[1].compareValue
    requires var nc := Compute(node, values, eps, ln).value;
             nc.baselineValue != nc.compareValue ==> Abs(ln(nc.baselineValue) - ln(nc.compareValue)) >= eps
    ensures var nc := Compute(node, values, eps, ln).value;
            nc.deltaValue == nc.compareValue - nc.baselineValue
  {
    CombinatorAggregatesChildren(node, values, eps, ln);
    RatioExactOnQuotients(Compute(node, values, eps, ln).value.children, eps, ln);
  }

  /** With eps > 0 the rate never divides by zero; a zero baseline gives
      delta / eps rather than 0. */
  lemma DeltaRateOfZeroBaseline(deltaValue: real, eps: real)
    requires 0.0 < eps
    ensures DeltaRate(deltaValue, 0.0, eps) == deltaValue / eps
  {
  }

  // Revenue = Price x Volume: baseline 10 x 100, compare 12 x 90.
  const Price := MetricTreeNode(Some("price"), Some("Price"), Some("price"), None, None, None, [])
  const Volume := MetricTreeNode(Some("volume"), Some("Volume"), Some("volume"), None, None, None, [])
  const Revenue := MetricTreeNode(Some("revenue"), Some("Revenue"), Some("revenue"), None, Some("mul"), None, [Price, Volume])
  const RevenueValues := map["price" := MetricValue(10.0, 12.0), "volume" := MetricValue(100.0, 90.0)]

  function PriceComputation(eps: real): NodeComputation {
    NodeComputation(Price, 12.0, 10.0, 2.0, DeltaRate(2.0, 10.0, eps), [])
  }

  function VolumeComputation(eps: real): NodeComputation {
    NodeComputation(Volume, 90.0, 100.0, -10.0, DeltaRate(-10.0, 100.0, eps), [])
  }

  lemma RevenueChildren(eps: real, ln: real -> real)
    requires 0.0 < eps
    ensures ComputeChildren(Revenue.children, RevenueValues, eps, ln) == Ok([PriceComputation(eps), VolumeComputation(eps)])
  {
    PriceLeaf(eps, ln);
    VolumeLeaf(eps, ln);
    var none: seq<MetricTreeNode> := [];
    ChildrenSnoc(none, Price, RevenueValues, eps, ln);
    var one := none + [Price];
    ChildrenSnoc(one, Volume, RevenueValues, eps, ln);
    assert one + [Volume] == Revenue.children;
    assert [] + [PriceComputation(eps)] + [VolumeComputation(eps)] == [PriceComputation(eps), VolumeComputation(eps)];
  }

  lemma PriceLeaf(eps: real, ln: real -> real)
    requires 0.0 < eps
    ensures Compute(Price, RevenueValues, eps, ln) == Ok(PriceComputation(eps))
  {
    assert ComputeChildren([], RevenueValues, eps, ln) == Ok([]);
    assert "price" in RevenueValues && RevenueValues["price"] == MetricValue(10.0, 12.0);
  }

  lemma VolumeLeaf(eps: real, ln: real -> real)
    requires 0.0 < eps
    ensures Compute(Volume, RevenueValues, eps, ln) == Ok(VolumeComputation(eps))
  {
    assert ComputeChildren([], RevenueValues, eps, ln) == Ok([]);
    assert "volume" in RevenueValues && RevenueValues["volume"] == MetricValue(100.0, 90.0);
  }

  lemma RevenueProducts(eps: real)
    ensures var cs := [PriceComputation(eps), VolumeComputation(eps)];
            Product(Values(cs, false)) == 1000.0 && Product(Values(cs, true)) == 1080.0
  {
    var cs := [PriceComputation(eps), VolumeComputation(eps)];
    assert Values(cs, false) == [10.0, 100.0];
    assert Values(cs, true) == [12.0, 90.0];
    assert [10.0, 100.0][..1] == [10.0];
    assert [12.0, 90.0][..1] == [12.0];
    assert [10.0][..0] == [] && [12.0][..0] == [];
  }

  lemma MulParses()
    ensures ParseOperation(Some("mul")) == Ok(MUL)
  {
    var upper := ToUpper("mul");
    assert upper[0] == 'M' && upper[1] == 'U' && upper[2] == 'L';
    assert upper == "MUL";
  }

  /** The revenue node's values and delta: 1080 - 1000 = 80 in this engine's
      compare - baseline convention; the price and volume contributions of
      LMDI add up to it. */
  lemma RevenueScenario(eps: real, ln: real -> real)
    requires 0.0 < eps && IsLog(ln) && Abs(ln(1000.0) - ln(1080.0)) >= eps
    ensures var r := Compute(Revenue, RevenueValues, eps, ln);
            && r.Ok?
            && r.value.baselineValue == 1000.0 && r.value.compareValue == 1080.0
            && r.value.deltaValue == 80.0
            && Sum(LmdiContributions(1000.0, 1080.0, r.value.children, eps, ln)) == 80.0
  {
    var cs := [PriceComputation(eps), VolumeComputation(eps)];
    RevenueChildren(eps, ln);
    MulParses();
    RevenueProducts(eps);
    assert Compute(Revenue, RevenueValues, eps, ln) == Ok(Build(Revenue, MUL, 1000.0, 1080.0, cs, eps, ln));
    LmdiExactOnProducts(cs, eps, ln);
    LmdiDeltaIsSumOfContributions(1000.0, 1080.0, cs, eps, ln);
  }
}
