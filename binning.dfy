/** Binning of integers into labelled, right-open intervals, as pandas'
    `cut(x, bins=edges, labels=labels, right=False)` does it: bin `i` is
    `[edges[i], edges[i+1])`, and a value outside every bin gets no label
    (pandas gives NaN). */
module Binning {

  datatype Option<T> = None | Some(value: T)

  /** Bin edges must increase strictly; pandas rejects other edges. */
  ghost predicate Increasing(edges: seq<int>)
  {
    forall i, j :: 0 <= i < j < |edges| ==> edges[i] < edges[j]
  }

  /** The label of the right-open bin that holds `x`, or `None` when `x` lies
      below the first edge or at or above the last one. Labels must be
      distinct, as pandas demands of the labels of an ordered cut. */
  function Cut<L>(x: int, edges: seq<int>, labels: seq<L>): (bin: Option<L>)
    requires |edges| == |labels| + 1
    requires Increasing(edges)
    requires forall a, b :: 0 <= a < b < |labels| ==> labels[a] != labels[b]
    ensures bin.None? <==> x < edges[0] || edges[|edges| - 1] <= x
    ensures bin.Some? ==> exists i :: 0 <= i < |labels| && edges[i] <= x < edges[i + 1] && bin == Some(labels[i])
    ensures forall i :: 0 <= i < |labels| ==> (bin == Some(labels[i]) <==> edges[i] <= x < edges[i + 1])
    decreases |labels|
  {
    if |labels| == 0 then None
    else if edges[0] <= x < edges[1] then Some(labels[0])
    else Cut(x, edges[1..], labels[1..])
  }
}
