/** `GraphicalBonfMTP` and its subclass `GraphicalFFSMTP`. The subclass
    keeps every piece of tree bookkeeping and only replaces the comparison,
    so one class carries both entry points: `CompareBonf` and `CompareFfs`. */
module GraphicalMtp {
  import opened Common
  import opened AlphaWeights
  import opened SrgpNode
  import opened Thresholds
  import opened GraphicalTree

  class GraphicalMTP {
    const alpha: real
    const successWeight: real
    var numAdaptQueries: nat
    /** -1 before the seeded first update; counts every later update, also
        past exhaustion. */
    var numQueries: int
    var testHist: seq<int>
    /** Every node built by the latest `SetNumQueries`. */
    var nodes: seq<Node>
    var startNode: NodeId
    /** The active node. */
    var testTree: NodeId
    /** Position of the active node among its parent's children. */
    var parentChildIdx: int

    /** `__init__` (the unused base threshold and scratch file are omitted);
        the tree does not exist until `SetNumQueries`. */
    constructor (alpha: real, successWeight: real)
      ensures this.alpha == alpha && this.successWeight == successWeight
      ensures nodes == [] && testHist == [] && numQueries == -1
    {
      this.alpha := alpha;
      this.successWeight := successWeight;
      numAdaptQueries := 0;
      numQueries := -1;
      testHist := [];
      nodes := [];
      startNode := 0;
      testTree := 0;
      parentChildIdx := 0;
    }

    /** The tree invariant holds of the current state. */
    ghost predicate Valid()
      reads this
    {
      TreeOk(nodes, startNode, testTree, parentChildIdx, testHist, numQueries,
             numAdaptQueries, successWeight, alpha)
    }

    /** Every earlier sibling of the active node has had its test run, as
        in a run of `GraphicalFFSMTP`, so its losses and threshold are
        recorded. */
    ghost predicate SiblingsObserved()
      reads this
    {
      SiblingsDone(nodes, testTree, parentChildIdx)
    }

    /** `_create_children(node, q)`: `numAdaptQueries - q - 1` new children
        of weight 0 with their histories, appended to the node list, and the
        list of fractions that will split the node's weight among them. */
    method CreateChildren(node: NodeId, q: int)
      requires node < |nodes| && q >= -1
      modifies this`nodes
      ensures nodes == WithChildren(old(nodes), node, successWeight, q, numAdaptQueries)
    {
      var count := ChildCount(q, numAdaptQueries);
      var first := |nodes|;
      var h := nodes[node].history;
      var i := 0;
      while i < count
        invariant 0 <= i <= count
        invariant nodes == old(nodes) + ChildNodes(node, h, successWeight, q, i)
      {
        nodes := nodes + [NewNode(0.0, successWeight, ChildHistory(h, q, i), Some(node))];
        i := i + 1;
      }
      nodes := nodes[node := nodes[node].(kids := Kids(Range(first, count), ChildWeights(successWeight, q, numAdaptQueries)))];
    }

    /** The loop of a success step: child `k` of `t` receives fraction `k`
        of `t`'s weight. */
    method SpreadWeights(t: NodeId)
      requires Layout(nodes, t)
      modifies this`nodes
      ensures nodes == SpreadUpTo(old(nodes), t, |old(nodes)[t].kids.ids|)
    {
      var cs, cw, w := nodes[t].kids.ids, nodes[t].kids.fractions, nodes[t].weight;
      var k := 0;
      while k < |cs|
        invariant 0 <= k <= |cs|
        invariant nodes == SpreadUpTo(old(nodes), t, k)
      {
        nodes := nodes[cs[k] := nodes[cs[k]].(weight := Share(cw[k], w))];
        k := k + 1;
      }
    }

    /** `set_num_queries`: a new start node of weight 1 with
        `numAdaptQueries` children, then the seeded first update with
        outcome 1, which spreads the start node's weight and activates its
        first child. */
    method SetNumQueries(n: nat)
      modifies this
      ensures Valid() && SiblingsObserved()
      ensures numAdaptQueries == n && numQueries == 0 && parentChildIdx == 0
      ensures testHist == if n > 0 then [1] else []
      ensures startNode == 0 && nodes[startNode].weight == 1.0 && nodes[startNode].parent == None
      ensures n == 0 ==> nodes == Planted(successWeight, 0) && testTree == startNode
      ensures n > 0 ==> Descended(Planted(successWeight, n), startNode, nodes, testTree, parentChildIdx,
                                  successWeight, 0, n, alpha)
      ensures n > 0 ==> && nodes[testTree].parent == Some(startNode)
                        && nodes[testTree].weight == Share(ChildWeights(successWeight, -1, n)[0], 1.0)
                        && nodes[testTree].localAlpha == Some(Share(alpha, nodes[testTree].weight))
    {
      Plant(n);
      DoTreeUpdate(1);
      ghost var i0 := parentChildIdx;
      parentChildIdx := 0;
      IndexReset(nodes, startNode, testTree, i0, testHist, numQueries, numAdaptQueries, successWeight, alpha);
      if n > 0 {
        SeededChild(successWeight, n, alpha);
      }
    }

    /** The part of `set_num_queries` before the seeded update: the counter
        at -1, an empty log, and a new start node of weight 1, active, with
        its children built for query -1. */
    method Plant(n: nat)
      modifies this
      ensures SeedOk(nodes, startNode, testTree, testHist, numQueries, numAdaptQueries, successWeight)
      ensures numAdaptQueries == n && startNode == 0 && nodes == Planted(successWeight, n)
    {
      numQueries := -1;
      numAdaptQueries := n;
      testHist := [];
      nodes := [NewNode(1.0, successWeight, [], None)];
      startNode := 0;
      CreateChildren(startNode, numQueries);
      testTree := startNode;
      SeedStart(successWeight, n, nodes);
      assert startNode == 0 && testTree == 0 && testHist == [] && numQueries == -1 && numAdaptQueries == n;
    }

    /** The approval branch of `_do_tree_update`: the active node's weight
        is spread over its children and its first child becomes active at
        position 0, with its own children and local alpha. */
    method Descend()
      requires CanDescend(nodes, testTree) && numQueries >= -1
      modifies this`nodes, this`testTree, this`parentChildIdx
      ensures Descended(old(nodes), old(testTree), nodes, testTree, parentChildIdx,
                        successWeight, numQueries, numAdaptQueries, alpha)
    {
      SpreadWeights(testTree);
      parentChildIdx := 0;
      testTree := nodes[testTree].kids.ids[parentChildIdx];
      CreateChildren(testTree, numQueries);
      nodes := nodes[testTree := nodes[testTree].(localAlpha := Some(Share(alpha, nodes[testTree].weight)))];
    }

    /** The rejection branch of `_do_tree_update`: the next sibling becomes
        active with the weight it already had, its own children and local
        alpha. */
    method Advance()
      requires HasNext(nodes, testTree, parentChildIdx) && numQueries >= -1
      modifies this`nodes, this`testTree, this`parentChildIdx
      ensures Advanced(old(nodes), old(testTree), old(parentChildIdx), nodes, testTree, parentChildIdx,
                       successWeight, numQueries, numAdaptQueries, alpha)
    {
      testTree := NextSibling(nodes, testTree, parentChildIdx);
      parentChildIdx := parentChildIdx + 1;
      CreateChildren(testTree, numQueries);
      nodes := nodes[testTree := nodes[testTree].(localAlpha := Some(Share(alpha, nodes[testTree].weight)))];
    }

    /** `_do_tree_update`. Once `numAdaptQueries` updates have happened it
        only counts. Otherwise it records the outcome; on an approval (1) the
        active node's weight is split over its children and the first child
        becomes active at position 0; on anything else the next sibling
        becomes active with the weight it already had. The new active node
        gets its children and its local alpha `alpha * weight`. */
    method DoTreeUpdate(result: int)
      requires Valid() || (SeedOk(nodes, startNode, testTree, testHist, numQueries, numAdaptQueries, successWeight) && result == 1)
      modifies this`numQueries, this`testHist, this`nodes, this`testTree, this`parentChildIdx
      ensures Valid()
      ensures numQueries == old(numQueries) + 1
      ensures old(numQueries) + 1 >= numAdaptQueries ==>
                testTree == old(testTree) && parentChildIdx == old(parentChildIdx)
                && testHist == old(testHist) && nodes == old(nodes)
      ensures old(numQueries) + 1 < numAdaptQueries ==> testHist == old(testHist) + [result]
      ensures old(numQueries) + 1 < numAdaptQueries && result == 1 ==>
                Descended(old(nodes), old(testTree), nodes, testTree, parentChildIdx,
                          successWeight, numQueries, numAdaptQueries, alpha)
      ensures old(numQueries) + 1 < numAdaptQueries && result != 1 ==>
                Advanced(old(nodes), old(testTree), old(parentChildIdx), nodes, testTree, parentChildIdx,
                         successWeight, numQueries, numAdaptQueries, alpha)
      ensures (old(SiblingsObserved()) && old(nodes)[old(testTree)].testLosses.Some?
               && old(nodes)[old(testTree)].testThres.Some?) ==> SiblingsObserved()
      ensures old(testTree) < |nodes| && nodes[old(testTree)] == old(nodes)[old(testTree)]
    {
      if numQueries + 1 >= numAdaptQueries {
        Count();
      } else if result == 1 {
        ghost var ns, t := nodes, testTree;
        Approve();
        DescendKeeps(ns, t, nodes, testTree, parentChildIdx, successWeight, numQueries, numAdaptQueries, alpha);
      } else {
        ghost var ns, s, t, i, hist, q0 := nodes, startNode, testTree, parentChildIdx, testHist, numQueries;
        RejectParent(ns, s, t, i, hist, q0, numAdaptQueries, successWeight, alpha);
        Reject(result);
        RejectObserved(ns, t, i, nodes, testTree, parentChildIdx, successWeight, numQueries, numAdaptQueries, alpha);
        AdvanceKeeps(ns, t, i, nodes, testTree, parentChildIdx, successWeight, numQueries, numAdaptQueries, alpha);
      }
    }

    /** An update after the last planned one only counts. */
    method Count()
      requires Valid() || SeedOk(nodes, startNode, testTree, testHist, numQueries, numAdaptQueries, successWeight)
      requires numQueries + 1 >= numAdaptQueries
      modifies this`numQueries
      ensures Valid()
      ensures numQueries == old(numQueries) + 1
      ensures old(SiblingsObserved()) ==> SiblingsObserved()
    {
      ghost var ns, s, t, i, hist, q0 := nodes, startNode, testTree, parentChildIdx, testHist, numQueries;
      numQueries := numQueries + 1;
      if q0 == -1 {
        SeedExhaustedOk(ns, s, t, i, hist, q0, successWeight, alpha);
      } else {
        ExhaustedOk(ns, s, t, i, hist, q0, numAdaptQueries, successWeight, alpha);
      }
    }

    /** An approval: the update moves to the first child. */
    method Approve()
      requires Valid() || SeedOk(nodes, startNode, testTree, testHist, numQueries, numAdaptQueries, successWeight)
      requires 0 <= numQueries + 1 < numAdaptQueries
      modifies this`numQueries, this`testHist, this`nodes, this`testTree, this`parentChildIdx
      ensures Valid() && SiblingsObserved()
      ensures numQueries == old(numQueries) + 1
      ensures testHist == old(testHist) + [1]
      ensures Descended(old(nodes), old(testTree), nodes, testTree, parentChildIdx,
                        successWeight, numQueries, numAdaptQueries, alpha)
    {
      ghost var ns, s, t, i, hist, q0 := nodes, startNode, testTree, parentChildIdx, testHist, numQueries;
      ApproveShape(ns, s, t, i, hist, q0, numAdaptQueries, successWeight, alpha);
      numQueries := numQueries + 1;
      Descend();
      testHist := testHist + [1];
      assert startNode == s && numQueries == q0 + 1;
      ApproveStep(ns, s, t, i, hist, q0, numAdaptQueries, successWeight, alpha, nodes, testTree, parentChildIdx, testHist);
    }

    /** Any other outcome: the update moves to the next sibling. */
    method Reject(result: int)
      requires Valid() && result != 1
      requires 0 <= numQueries + 1 < numAdaptQueries
      modifies this`numQueries, this`testHist, this`nodes, this`testTree, this`parentChildIdx
      ensures Valid()
      ensures numQueries == old(numQueries) + 1
      ensures testHist == old(testHist) + [result]
      ensures Advanced(old(nodes), old(testTree), old(parentChildIdx), nodes, testTree, parentChildIdx,
                       successWeight, numQueries, numAdaptQueries, alpha)
    {
      ghost var ns, s, t, i, hist, q0 := nodes, startNode, testTree, parentChildIdx, testHist, numQueries;
      RejectShape(ns, s, t, i, hist, q0, numAdaptQueries, successWeight, alpha);
      numQueries := numQueries + 1;
      Advance();
      assert Advanced(ns, t, i, nodes, testTree, parentChildIdx, successWeight, q0 + 1, numAdaptQueries, alpha);
      testHist := testHist + [result];
      assert startNode == s && numQueries == q0 + 1;
      RejectStep(ns, s, t, i, hist, q0, numAdaptQueries, successWeight, alpha, result, nodes, testTree, parentChildIdx, testHist);
    }

    /** `get_test_compare` of `GraphicalBonfMTP`, given the mean of the loss
        differences and its standard error: the upper confidence bound
        `lossMean + stdErr * ppf(1 - local_alpha)` of the active node decides
        the outcome, 1 when it lies below 0, and the tree is updated with it.
        Only the start node of a tree with no planned query lacks a local
        alpha, and then nothing changes. The level used never exceeds the
        global alpha. */
    method CompareBonf(num: Numerics, lossMean: real, stdErr: real) returns (r: Result<int>)
      requires Valid()
      modifies this`numQueries, this`testHist, this`nodes, this`testTree, this`parentChildIdx
      ensures Valid()
      ensures r.Err? <==> numAdaptQueries == 0
      ensures r.Err? ==> && r.fault == LocalAlphaUnset && numQueries == old(numQueries) && nodes == old(nodes)
                         && testHist == old(testHist) && testTree == old(testTree)
                         && parentChildIdx == old(parentChildIdx)
      ensures r.Ok? ==> old(nodes)[old(testTree)].localAlpha.Some?
      ensures r.Ok? && 0.0 <= successWeight <= 1.0 && 0.0 <= alpha ==>
                0.0 <= old(nodes)[old(testTree)].localAlpha.value <= alpha
      ensures r.Ok? ==> r.value == BonfOutcome(num, lossMean, stdErr, old(nodes)[old(testTree)].localAlpha.value)
      ensures r.Ok? ==> numQueries == old(numQueries) + 1
      ensures r.Ok? && old(numQueries) + 1 < numAdaptQueries ==> testHist == old(testHist) + [r.value]
      ensures r.Ok? && old(numQueries) + 1 >= numAdaptQueries ==>
                && nodes == old(nodes) && testTree == old(testTree)
                && parentChildIdx == old(parentChildIdx) && testHist == old(testHist)
      ensures r.Ok? && old(numQueries) + 1 < numAdaptQueries && r.value == 1 ==>
                Descended(old(nodes), old(testTree), nodes, testTree, parentChildIdx,
                          successWeight, numQueries, numAdaptQueries, alpha)
      ensures r.Ok? && old(numQueries) + 1 < numAdaptQueries && r.value != 1 ==>
                Advanced(old(nodes), old(testTree), old(parentChildIdx), nodes, testTree, parentChildIdx,
                         successWeight, numQueries, numAdaptQueries, alpha)
    {
      ActiveFacts(nodes, startNode, testTree, parentChildIdx, testHist, numQueries, numAdaptQueries, successWeight, alpha);
      if 0.0 <= successWeight <= 1.0 && 0.0 <= alpha {
        LocalAlphaWithinBudget(nodes, startNode, testTree, parentChildIdx, testHist, numQueries,
                               numAdaptQueries, successWeight, alpha);
      }
      if nodes[testTree].localAlpha.None? {
        return Err(LocalAlphaUnset);
      }
      var result := BonfOutcome(num, lossMean, stdErr, nodes[testTree].localAlpha.value);
      DoTreeUpdate(result);
      r := Ok(result);
    }

    /** The part of `get_test_compare` of `GraphicalFFSMTP` before the
        update. The active node records its loss differences; the losses
        and thresholds its earlier siblings recorded, in order, give the
        correlation estimate and the prior thresholds; the threshold at the
        node's local alpha (`_get_min_t_stat_thres_approx` with its default
        of no sampled configuration) is recorded too, and the outcome is 1
        when the t-statistic `lossMean / stdErr` lies below it. */
    method TestFfs(num: Numerics, lossDiffs: seq<real>, lossMean: real, stdErr: real) returns (r: Result<int>)
      requires Valid()
      modifies this`nodes
      ensures Valid()
      ensures SiblingBlock(old(nodes), testTree, parentChildIdx)
      ensures testTree < |nodes| && nodes[testTree].testLosses == Some(lossDiffs)
      ensures r.Err? <==> PriorTests(old(nodes), testTree, parentChildIdx).Err?
      ensures r.Err? ==> && r.fault == PriorTests(old(nodes), testTree, parentChildIdx).fault
                         && nodes[testTree].testThres == old(nodes)[testTree].testThres
                         && nodes == old(nodes)[testTree := ObserveLosses(old(nodes)[testTree], lossDiffs)]
      ensures r.Ok? ==>
                var prior := PriorTests(old(nodes), testTree, parentChildIdx).value;
                && nodes[testTree].localAlpha.Some?
                && var thres := SolveThres(num, EstCorr(num, prior.0, lossDiffs), prior.1,
                                           nodes[testTree].localAlpha.value);
                   && nodes[testTree].testThres == Some(thres)
                   && r.value == FfsOutcome(lossMean, stdErr, thres)
                   && nodes == old(nodes)[testTree := SetTestThres(ObserveLosses(old(nodes)[testTree], lossDiffs), thres)]
      ensures old(SiblingsObserved()) ==> SiblingsObserved()
    {
      ghost var ns := nodes;
      var observed := ObserveLosses(nodes[testTree], lossDiffs);
      Record(observed);
      assert nodes == ns[testTree := observed];
      var prior := PriorTests(nodes, testTree, parentChildIdx);
      if prior.Err? {
        return Err(prior.fault);
      }
      var estCorr := EstCorr(num, prior.value.0, lossDiffs);
      var thres := MinThresApprox(num, estCorr, prior.value.1, nodes[testTree].localAlpha.value, []);
      ghost var n1 := nodes;
      Record(SetTestThres(observed, thres));
      assert nodes == ns[testTree := SetTestThres(observed, thres)] by {
        assert nodes == n1[testTree := SetTestThres(observed, thres)];
      }
      r := Ok(FfsOutcome(lossMean, stdErr, thres));
    }

    /** Replaces the active node by `v`, which differs from it at most in
        the recorded losses and threshold (`observe_losses`,
        `set_test_thres`): the tree stays valid, the earlier siblings'
        records stay as they were, and a record that was there stays. */
    method Record(v: Node)
      requires Valid()
      requires v.(testLosses := nodes[testTree].testLosses, testThres := nodes[testTree].testThres) == nodes[testTree]
      modifies this`nodes
      ensures nodes == old(nodes)[testTree := v]
      ensures Valid()
      ensures SiblingBlock(old(nodes), testTree, parentChildIdx) && SiblingBlock(nodes, testTree, parentChildIdx)
      ensures PriorTests(nodes, testTree, parentChildIdx) == PriorTests(old(nodes), testTree, parentChildIdx)
      ensures (&& old(SiblingsObserved())
               && (old(nodes)[testTree].testLosses.Some? ==> v.testLosses.Some?)
               && (old(nodes)[testTree].testThres.Some? ==> v.testThres.Some?)) ==> SiblingsObserved()
    {
      ghost var ns := nodes;
      ValidSiblings(ns, startNode, testTree, parentChildIdx, testHist, numQueries, numAdaptQueries, successWeight, alpha);
      RecordKeepsPrior(ns, testTree, parentChildIdx, v);
      RecordOk(ns, startNode, testTree, parentChildIdx, testHist, numQueries, numAdaptQueries, successWeight, alpha, v);
      if && SiblingsObserved()
         && (ns[testTree].testLosses.Some? ==> v.testLosses.Some?)
         && (ns[testTree].testThres.Some? ==> v.testThres.Some?) {
        RecordKeepsDone(ns, testTree, parentChildIdx, v);
      }
      nodes := nodes[testTree := v];
    }

    /** `get_test_compare` of `GraphicalFFSMTP`: the test of the active
        node, then the update with its outcome. With no planned query the
        start node has no parent to find siblings under. When every earlier
        sibling has had its test run, as it has in any sequence of these
        calls after `SetNumQueries`, the call succeeds and keeps that so; the
        tested node keeps its losses and threshold after the update. */
    method CompareFfs(num: Numerics, lossDiffs: seq<real>, lossMean: real, stdErr: real) returns (r: Result<int>)
      requires Valid()
      modifies this`numQueries, this`testHist, this`nodes, this`testTree, this`parentChildIdx
      ensures Valid()
      ensures numAdaptQueries == 0 ==> r == Err(NoParentNode)
      ensures old(SiblingsObserved()) ==> SiblingsObserved() && (numAdaptQueries > 0 ==> r.Ok?)
      ensures r.Err? ==> && numQueries == old(numQueries) && testHist == old(testHist)
                         && testTree == old(testTree) && parentChildIdx == old(parentChildIdx)
      ensures r.Ok? ==> numQueries == old(numQueries) + 1
      ensures r.Ok? && old(numQueries) + 1 < numAdaptQueries ==> testHist == old(testHist) + [r.value]
      ensures r.Ok? ==> && old(testTree) < |nodes| && nodes[old(testTree)].testLosses == Some(lossDiffs)
                        && nodes[old(testTree)].testThres.Some?
                        && r.value == FfsOutcome(lossMean, stdErr, nodes[old(testTree)].testThres.value)
      ensures SiblingBlock(old(nodes), old(testTree), old(parentChildIdx))
      ensures r.Err? <==> PriorTests(old(nodes), old(testTree), old(parentChildIdx)).Err?
      ensures r.Err? ==> && r.fault == PriorTests(old(nodes), old(testTree), old(parentChildIdx)).fault
                         && nodes == old(nodes)[old(testTree) := ObserveLosses(old(nodes)[old(testTree)], lossDiffs)]
      ensures r.Ok? ==> old(nodes)[old(testTree)].localAlpha.Some?
      ensures r.Ok? ==>
                var t := old(testTree);
                var prior := PriorTests(old(nodes), t, old(parentChildIdx)).value;
                var thres := SolveThres(num, EstCorr(num, prior.0, lossDiffs), prior.1, old(nodes)[t].localAlpha.value);
                var tested := old(nodes)[t := SetTestThres(ObserveLosses(old(nodes)[t], lossDiffs), thres)];
                && nodes[t].testThres == Some(thres)
                && (old(numQueries) + 1 >= numAdaptQueries ==>
                      nodes == tested && testTree == t && parentChildIdx == old(parentChildIdx))
                && (old(numQueries) + 1 < numAdaptQueries && r.value == 1 ==>
                      Descended(tested, t, nodes, testTree, parentChildIdx, successWeight, numQueries, numAdaptQueries, alpha))
                && (old(numQueries) + 1 < numAdaptQueries && r.value != 1 ==>
                      Advanced(tested, t, old(parentChildIdx), nodes, testTree, parentChildIdx,
                               successWeight, numQueries, numAdaptQueries, alpha))
    {
      ActiveFacts(nodes, startNode, testTree, parentChildIdx, testHist, numQueries, numAdaptQueries, successWeight, alpha);
      r := TestFfs(num, lossDiffs, lossMean, stdErr);
      if r.Ok? {
        DoTreeUpdate(r.value);
      }
    }
  }
}
