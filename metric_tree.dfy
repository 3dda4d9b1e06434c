/** The configured metric tree (MetricTreeNodeDTO). */
module MetricTree {
  import opened Wrappers

  /** One configured node. A leaf carries the metric it is bound to; a
      combinator names an operation over its ordered children. A child list
      that is absent in the configuration is represented by the empty
      sequence: every consumer treats the two alike. The free-form `params`
      map is carried by the source but read by no part of the core, so it is
      not represented. */
  datatype MetricTreeNode = MetricTreeNode(
    nodeId: Option<string>,
    nodeName: Option<string>,
    metricId: Option<string>,
    isRate: Option<bool>,
    op: Option<string>,
    dimensions: Option<seq<string>>,
    children: seq<MetricTreeNode>)
  {
    predicate IsLeaf() { children == [] }
  }
}
