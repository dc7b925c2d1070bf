/** highest_degree_node_in_graph (utilities.py). The graph is given as the
    sequence of (node, degree) pairs its degree iterator yields. */
module GraphUtilities {
  import opened Wrappers

  /** The first node of greatest positive degree, or None when no node has a
      positive degree (an empty graph included). */
  method HighestDegreeNodeInGraph<N>(degrees: seq<(N, nat)>) returns (r: Option<N>)
    ensures r.None? <==> forall i :: 0 <= i < |degrees| ==> degrees[i].1 == 0
    ensures r.Some? ==>
      exists k :: && 0 <= k < |degrees|
                  && degrees[k].0 == r.value
                  && degrees[k].1 > 0
                  && (forall i :: 0 <= i < |degrees| ==> degrees[i].1 <= degrees[k].1)
                  && (forall i :: 0 <= i < k ==> degrees[i].1 < degrees[k].1)
  {
    var maxDegree: nat := 0;
    var maxDegreeNode: Option<N> := None;
    ghost var at := 0;
    for i := 0 to |degrees|
      invariant maxDegreeNode.None? ==> maxDegree == 0
      invariant forall j :: 0 <= j < i ==> degrees[j].1 <= maxDegree
      invariant maxDegreeNode.Some? ==>
        && at < i
        && degrees[at] == (maxDegreeNode.value, maxDegree)
        && maxDegree > 0
        && forall j :: 0 <= j < at ==> degrees[j].1 < maxDegree
    {
      var (node, degree) := degrees[i];
      if degree > maxDegree {
        maxDegree := degree;
        maxDegreeNode := Some(node);
        at := i;
      }
    }
    return maxDegreeNode;
  }
}
