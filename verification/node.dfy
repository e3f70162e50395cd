/** A vertex of the alpha-spending graph of the sequentially rejective
    graphical procedure (`Node`). The mechanisms keep every node they build
    in a list; a reference to a node is its position in that list, and an
    update of a node's field replaces the node at that position. */
module SrgpNode {
  import opened Common

  /** History entries: 1 for an approval, 0 for a rejection, `None` for a
      step of the prespecified chain. */
  type Mark = Option<int>

  /** Position of a node in its mechanism's node list. */
  type NodeId = nat

  datatype Kids = Kids(ids: seq<NodeId>, fractions: seq<real>)

  datatype Node = Node(
    /** Share of the global alpha budget. */
    weight: real,
    successEdge: real,
    failureEdge: real,
    /** Outcomes on the path that led here (diagnostic). */
    history: seq<Mark>,
    parent: Option<NodeId>,
    /** Lazily built children and their fractions of this node's weight
        (empty until the mechanism creates them). */
    kids: Kids,
    /** Successor links of the parallel variant. */
    success: Option<NodeId>,
    failure: Option<NodeId>,
    /** `alpha * weight` once the node becomes active; `None` before, and
        again after `Earn`. */
    localAlpha: Option<real>,
    /** Loss differences and critical value recorded when the node's test ran. */
    testLosses: Option<seq<real>>,
    testThres: Option<real>)

  /** `Node.__init__`: the two edges split the outgoing weight completely;
      a new node has no successors, no children and no test yet. */
  function NewNode(weight: real, successEdge: real, history: seq<Mark>, parent: Option<NodeId>): (n: Node)
    ensures n.weight == weight && n.successEdge == successEdge
    ensures n.successEdge + n.failureEdge == 1.0
    ensures n.history == history && n.parent == parent
    ensures n.success == None && n.failure == None && n.kids == Kids([], [])
    ensures n.localAlpha == None && n.testLosses == None && n.testThres == None
  {
    Node(weight, successEdge, 1.0 - successEdge, history, parent, Kids([], []), None, None, None, None, None)
  }

  /** `earn`: the node receives exactly `weightEarn` more budget and its
      local alpha is cleared until the mechanism recomputes it; nothing
      else about the node changes. */
  function Earn(n: Node, weightEarn: real): (r: Node)
    ensures r.weight - n.weight == weightEarn
    ensures r.localAlpha == None
    ensures r.(weight := n.weight, localAlpha := n.localAlpha) == n
  {
    n.(weight := n.weight + weightEarn, localAlpha := None)
  }

  /** `observe_losses`: only the recorded losses change. */
  function ObserveLosses(n: Node, losses: seq<real>): (r: Node)
    ensures r.testLosses == Some(losses)
    ensures r.(testLosses := n.testLosses) == n
  {
    n.(testLosses := Some(losses))
  }

  /** `set_test_thres`: only the recorded threshold changes. */
  function SetTestThres(n: Node, thres: real): (r: Node)
    ensures r.testThres == Some(thres)
    ensures r.(testThres := n.testThres) == n
  {
    n.(testThres := Some(thres))
  }

  function LossesOf(n: Node): Option<seq<real>>
  {
    n.testLosses
  }

  function ThresOf(n: Node): Option<real>
  {
    n.testThres
  }

  /** Every id of `ids` names a node of `ns`. */
  ghost predicate AllIds(ns: seq<Node>, ids: seq<NodeId>)
  {
    forall k :: 0 <= k < |ids| ==> ids[k] < |ns|
  }

  /** The values `get` reads off the nodes `ids`, in order, as a Python list
      comprehension over them collects them; `None` when one of the nodes
      has no such value yet (the comprehension raises `AttributeError`). */
  function Recorded<T>(ns: seq<Node>, ids: seq<NodeId>, get: Node -> Option<T>): (r: Option<seq<T>>)
    requires AllIds(ns, ids)
    ensures r.Some? <==> forall k :: 0 <= k < |ids| ==> get(ns[ids[k]]).Some?
    ensures r.Some? ==> |r.value| == |ids|
    ensures r.Some? ==> forall k :: 0 <= k < |ids| ==> r.value[k] == get(ns[ids[k]]).value
    decreases |ids|
  {
    if |ids| == 0 then Some([])
    else
      var last := get(ns[ids[|ids| - 1]]);
      match Recorded(ns, ids[..|ids| - 1], get)
      case None => None
      case Some(prefix) => if last.None? then None else Some(prefix + [last.value])
  }

  /** `Recorded` depends only on the values it reads. */
  lemma RecordedSame<T>(ns: seq<Node>, ms: seq<Node>, ids: seq<NodeId>, get: Node -> Option<T>)
    requires AllIds(ns, ids) && AllIds(ms, ids)
    requires forall k :: 0 <= k < |ids| ==> get(ms[ids[k]]) == get(ns[ids[k]])
    ensures Recorded(ms, ids, get) == Recorded(ns, ids, get)
  {
    var a, b := Recorded(ms, ids, get), Recorded(ns, ids, get);
    if a.Some? && b.Some? {
      assert a.value == b.value;
    }
  }

  /** Every node's parent was built before it. */
  ghost predicate ParentsBefore(ns: seq<Node>)
  {
    forall k :: 0 <= k < |ns| && ns[k].parent.Some? ==> ns[k].parent.value < k
  }
}
