/** The graph of `GraphicalParallelMTP`, as values: a prespecified chain of
    `n + 1` nodes tested one per query, beside an adaptive binary tree whose
    active node moves to its success or failure child after each query.
    The chain occupies positions `0 .. n` of the node list, the adaptive
    root position `n + 1`; every `_create_children` appends two nodes. */
module ParallelTree {
  import opened Common
  import opened AlphaWeights
  import opened SrgpNode
  import opened Thresholds
  import opened GraphicalTree
  import Bonferroni

  /** The constructor arguments that shape the graph: the global level,
      the success edge weight, the share `pr` of the budget given to the
      chain, the share `fpw` of that given to the chain's root, and the
      depth up to which the adaptive tree is seeded with fresh weight. */
  datatype Config = Config(alpha: real, sw: real, pr: real, fpw: real, depth: nat)

  /** `[None] * i`. */
  function Nones(i: nat): (r: seq<Mark>)
    ensures |r| == i
    ensures forall k :: 0 <= k < i ==> r[k] == None
  {
    seq(i, k => None)
  }

  /** `child_weight` of `_create_children` after `numQ` queries: an equal
      share `(1 - pr) / 2^depth` while fewer than `depth` queries have been
      made, nothing afterwards. */
  function SeedWeight(c: Config, numQ: int): real
  {
    if numQ < c.depth then (1.0 - c.pr) / Bonferroni.Pow2(c.depth) as real else 0.0
  }

  /** A seed never exceeds the adaptive budget `1 - pr`, and is zero from
      query `depth` on. */
  lemma SeedWeightBound(c: Config, numQ: int)
    requires 0.0 <= c.pr <= 1.0
    ensures 0.0 <= SeedWeight(c, numQ) <= 1.0 - c.pr
    ensures numQ >= c.depth ==> SeedWeight(c, numQ) == 0.0
  {
    if numQ < c.depth {
      var d := Bonferroni.Pow2(c.depth) as real;
      assert d >= 1.0;
      assert (1.0 - c.pr) / d <= 1.0 - c.pr by {
        assert (1.0 - c.pr) == ((1.0 - c.pr) / d) * d;
      }
    }
  }

  /** Chain node `k` as `set_num_queries` builds it: its prespecified
      weight, a success edge of 1, `k` unknown outcomes as history, the
      previous node as parent and the next one (none for node `n`) as both
      successors. */
  function ChainNode(c: Config, n: nat, k: nat): Node
  {
    var link := if k < n then Some(k + 1) else None;
    NewNode(PrespecWeight(c.fpw, c.pr, n, k), 1.0, Nones(k), if k == 0 then None else Some(k - 1))
      .(success := link, failure := link)
  }

  /** A node without the fields a test or an activation sets. */
  function Bare(x: Node): Node
  {
    x.(localAlpha := None, testLosses := None, testThres := None)
  }

  /** Positions `0 .. n` hold the chain. */
  ghost predicate ChainOk(ns: seq<Node>, c: Config, n: nat)
  {
    n < |ns| && forall k :: 0 <= k <= n ==> Bare(ns[k]) == ChainNode(c, n, k)
  }

  /** The first `m` chain nodes have had their test run. */
  ghost predicate ChainTested(ns: seq<Node>, m: int)
  {
    forall k :: 0 <= k < m && k < |ns| ==> ns[k].testLosses.Some? && ns[k].testThres.Some?
  }

  /** Node `t` has the two fresh children of `_create_children` after
      `numQ` queries, at the end of the node list. */
  ghost predicate Seeded(ns: seq<Node>, t: NodeId, c: Config, numQ: int)
  {
    && t + 2 < |ns|
    && ns[t].success == Some(|ns| - 2) && ns[t].failure == Some(|ns| - 1)
    && ns[|ns| - 2] == NewNode(SeedWeight(c, numQ), c.sw, ns[t].history + [Some(1)], Some(t))
    && ns[|ns| - 1] == NewNode(SeedWeight(c, numQ), c.sw, ns[t].history + [Some(0)], Some(t))
  }

  /** The active node `t` of the adaptive tree: past the chain, seeded,
      with the configured edges and its local alpha; with no seeding and
      sensible shares its weight stays within the adaptive budget. */
  ghost predicate AdaptOk(ns: seq<Node>, t: NodeId, c: Config, n: nat, numQ: int)
  {
    && n < t && Seeded(ns, t, c, numQ)
    && ns[t].successEdge == c.sw && ns[t].failureEdge == 1.0 - c.sw
    && ns[t].localAlpha == Some(Share(c.alpha, ns[t].weight))
    && (c.depth == 0 && 0.0 <= c.sw <= 1.0 && 0.0 <= c.pr <= 1.0 ==> 0.0 <= ns[t].weight <= 1.0 - c.pr)
  }

  /** The state of the mechanism between queries: `numQ` queries made,
      chain node `numQ` (if any is left) next to test, with its local
      alpha, every earlier one tested, and the adaptive history spelled
      out by the active node's history. */
  ghost predicate ParOk(ns: seq<Node>, pt: Option<NodeId>, tt: NodeId, numQ: int,
                        thist: seq<int>, phist: seq<int>, c: Config, n: nat)
  {
    && 0 <= numQ <= n + 1 && |thist| == numQ && |phist| == numQ
    && ChainOk(ns, c, n) && ChainTested(ns, numQ)
    && pt == (if numQ <= n then Some(numQ) else None)
    && (numQ <= n ==> ns[numQ].localAlpha == Some(Share(c.alpha, ns[numQ].weight)))
    && AdaptOk(ns, tt, c, n, numQ)
    && ns[tt].history == Outcomes(thist)
    && ParentsBefore(ns)
  }

  /** `_get_prior_losses` / `_get_prior_thres`: the values `get` reads off
      `node` and its ancestors, root first; `None` when one of them has no
      such value yet (the attribute does not exist). */
  function Lineage<T>(ns: seq<Node>, node: Option<NodeId>, get: Node -> Option<T>): Option<seq<T>>
    requires ParentsBefore(ns)
    requires node.Some? ==> node.value < |ns|
    decreases if node.Some? then node.value + 1 else 0
  {
    if node.None? then Some([])
    else
      var x := ns[node.value];
      match Lineage(ns, x.parent, get)
      case None => None
      case Some(prefix) => if get(x).None? then None else Some(prefix + [get(x).value])
  }

  /** Along the chain the lineage of node `k` is the chain's first `k + 1`
      nodes in order: it exists exactly when all of them have the value,
      and then lists them. */
  lemma {:induction false} ChainLineage<T>(ns: seq<Node>, c: Config, n: nat, k: nat, get: Node -> Option<T>)
    requires ParentsBefore(ns) && ChainOk(ns, c, n) && k <= n
    ensures Lineage(ns, Some(k), get).Some? <==> forall j :: 0 <= j <= k ==> get(ns[j]).Some?
    ensures Lineage(ns, Some(k), get).Some? ==>
              |Lineage(ns, Some(k), get).value| == k + 1
              && forall j :: 0 <= j <= k ==> Lineage(ns, Some(k), get).value[j] == get(ns[j]).value
  {
    assert Bare(ns[k]) == ChainNode(c, n, k);
    if k > 0 {
      ChainLineage(ns, c, n, k - 1, get);
    }
  }

  /** The lineage of `node` reads only the parents and values of `node`
      and its ancestors, all at or before `node`. */
  lemma {:induction false} LineageSame<T>(ns: seq<Node>, ms: seq<Node>, node: Option<NodeId>, get: Node -> Option<T>)
    requires ParentsBefore(ns) && ParentsBefore(ms)
    requires node.Some? ==> node.value < |ns| && node.value < |ms|
    requires node.Some? ==> forall j :: 0 <= j <= node.value ==> ms[j].parent == ns[j].parent && get(ms[j]) == get(ns[j])
    ensures Lineage(ms, node, get) == Lineage(ns, node, get)
    decreases if node.Some? then node.value + 1 else 0
  {
    if node.Some? {
      LineageSame(ns, ms, ns[node.value].parent, get);
    }
  }

  /** The threshold the correlation-aware test at `level` gets for the
      loss differences `current`, given the tests recorded along the
      lineage ending at `node`; `None` when one of those tests has not run. */
  function LineageThres(num: Numerics, ns: seq<Node>, node: Option<NodeId>, current: seq<real>, level: real): Option<real>
    requires ParentsBefore(ns)
    requires node.Some? ==> node.value < |ns|
  {
    var losses := Lineage(ns, node, LossesOf);
    var thres := Lineage(ns, node, ThresOf);
    if losses.Some? && thres.Some? then Some(SolveThres(num, EstCorr(num, losses.value, current), thres.value, level))
    else None
  }

  /** `LineageThres` reads only the parents and the records of `node` and
      its ancestors. */
  lemma LineageThresSame(num: Numerics, ns: seq<Node>, ms: seq<Node>, node: Option<NodeId>, current: seq<real>, level: real)
    requires ParentsBefore(ns) && ParentsBefore(ms)
    requires node.Some? ==> node.value < |ns| && node.value < |ms|
    requires node.Some? ==> forall j :: 0 <= j <= node.value ==>
               ms[j].parent == ns[j].parent && ms[j].testLosses == ns[j].testLosses && ms[j].testThres == ns[j].testThres
    ensures LineageThres(num, ms, node, current, level) == LineageThres(num, ns, node, current, level)
  {
    LineageSame(ns, ms, node, LossesOf);
    LineageSame(ns, ms, node, ThresOf);
  }

  /** The same for two node lists that agree up to `node`. */
  lemma LineageThresPrefix(num: Numerics, ns: seq<Node>, ms: seq<Node>, k: NodeId, current: seq<real>, level: real)
    requires ParentsBefore(ns) && ParentsBefore(ms) && k < |ns| && k < |ms|
    requires ms[..k + 1] == ns[..k + 1]
    ensures LineageThres(num, ms, Some(k), current, level) == LineageThres(num, ns, Some(k), current, level)
  {
    assert forall j :: 0 <= j <= k ==> ms[j] == ms[..k + 1][j] == ns[..k + 1][j] == ns[j];
    LineageThresSame(num, ns, ms, Some(k), current, level);
  }

  /** In a valid state the test of chain node `k` never misses a record:
      its predecessors have all been tested, and so, once its own test has
      run, has the lineage the adaptive test reads. */
  lemma ChainReady(num: Numerics, ns: seq<Node>, c: Config, n: nat, k: nat, current: seq<real>, level: real)
    requires ParentsBefore(ns) && ChainOk(ns, c, n) && ChainTested(ns, k) && k <= n
    ensures LineageThres(num, ns, ns[k].parent, current, level).Some?
    ensures ns[k].testLosses.Some? && ns[k].testThres.Some? ==> LineageThres(num, ns, Some(k), current, level).Some?
  {
    assert Bare(ns[k]) == ChainNode(c, n, k);
    if k > 0 {
      ChainLineage(ns, c, n, k - 1, LossesOf);
      ChainLineage(ns, c, n, k - 1, ThresOf);
    }
    ChainLineage(ns, c, n, k, LossesOf);
    ChainLineage(ns, c, n, k, ThresOf);
  }

  /** The chain's weights are the prespecified ones, so together they take
      at most the share `pr` of the budget, leaving `1 - pr` to the
      adaptive root. */
  lemma ChainBudget(ns: seq<Node>, c: Config, n: nat)
    requires ChainOk(ns, c, n) && 0.0 <= c.fpw <= 1.0 && 0.0 <= c.pr
    ensures Sum(seq(n + 1, k requires 0 <= k <= n => ns[k].weight)) <= c.pr
    ensures Sum(seq(n + 1, k requires 0 <= k <= n => ns[k].weight)) + (1.0 - c.pr) <= 1.0
  {
    var w := seq(n + 1, k requires 0 <= k <= n => ns[k].weight);
    forall k | 0 <= k <= n
      ensures w[k] == PrespecWeights(c.fpw, c.pr, n)[k]
    {
      assert Bare(ns[k]) == ChainNode(c, n, k);
    }
    assert w == PrespecWeights(c.fpw, c.pr, n);
    PrespecTotal(c.fpw, c.pr, n);
  }

  /** `_create_children(t)` after `numQ` queries: two nodes of the seed
      weight, with `t`'s history extended by a success and by a failure,
      appended and linked as `t`'s successors. */
  function WithSeeds(ns: seq<Node>, t: NodeId, c: Config, numQ: int): (r: seq<Node>)
    requires t < |ns|
    ensures |r| == |ns| + 2 && Seeded(r, t, c, numQ)
    ensures forall k :: 0 <= k < |ns| && k != t ==> r[k] == ns[k]
    ensures r[t].(success := ns[t].success, failure := ns[t].failure) == ns[t]
  {
    var cw := SeedWeight(c, numQ);
    var s := NewNode(cw, c.sw, ns[t].history + [Some(1)], Some(t));
    var f := NewNode(cw, c.sw, ns[t].history + [Some(0)], Some(t));
    (ns + [s, f])[t := ns[t].(success := Some(|ns|), failure := Some(|ns| + 1))]
  }

  /** The successor of `t` on outcome `res` (1 approves). */
  function Next(x: Node, res: int): Option<NodeId>
  {
    if res == 1 then x.success else x.failure
  }

  function EdgeOf(x: Node, res: int): real
  {
    if res == 1 then x.successEdge else x.failureEdge
  }

  /** The adaptive half of `_do_tree_update` with outcome `res` and
      `numQ` queries counted: the successor of `t` on that outcome earns
      `t`'s weight times the edge, becomes active with its local alpha,
      and gets its own children. */
  function AdaptStep(ns: seq<Node>, t: NodeId, res: int, c: Config, numQ: int): (r: seq<Node>)
    requires t < |ns| && Next(ns[t], res).Some? && Next(ns[t], res).value < |ns|
    ensures var u := Next(ns[t], res).value;
            && |r| == |ns| + 2 && Seeded(r, u, c, numQ)
            && (forall k :: 0 <= k < |ns| && k != u ==> r[k] == ns[k])
            && r[u].weight == ns[u].weight + Share(EdgeOf(ns[t], res), ns[t].weight)
            && r[u].localAlpha == Some(Share(c.alpha, r[u].weight))
            && r[u].(weight := ns[u].weight, localAlpha := ns[u].localAlpha,
                     success := ns[u].success, failure := ns[u].failure) == ns[u]
  {
    var u := Next(ns[t], res).value;
    var earned := Earn(ns[u], Share(EdgeOf(ns[t], res), ns[t].weight));
    var m := ns[u := earned.(localAlpha := Some(Share(c.alpha, earned.weight)))];
    var r := WithSeeds(m, u, c, numQ);
    assert r[u].(success := m[u].success, failure := m[u].failure) == m[u];
    assert r[u].weight == m[u].weight && r[u].localAlpha == m[u].localAlpha;
    r
  }

  /** Passing a fraction of a weight along an edge passes no more than
      the weight. */
  lemma ShareWithin(e: real, x: real)
    requires 0.0 <= e <= 1.0 && 0.0 <= x <= 1.0
    ensures 0.0 <= Share(e, x) <= x
  {
    ProductInUnit(e, x);
  }

  /** One adaptive step from a valid state moves to a child of the active
      node that keeps the whole adaptive invariant: the new active node
      holds its seed plus what the old one passed along its edge, its
      history grows by the outcome, and the nodes before the old children
      are untouched. */
  lemma AdaptStepOk(ns: seq<Node>, t: NodeId, c: Config, n: nat, numQ: int, hist: seq<int>, res: int)
    requires 0 <= numQ && AdaptOk(ns, t, c, n, numQ) && ParentsBefore(ns) && ns[t].history == Outcomes(hist)
    ensures Next(ns[t], res).Some? && t < Next(ns[t], res).value < |ns|
    ensures var r := AdaptStep(ns, t, res, c, numQ + 1);
            var u := Next(ns[t], res).value;
            && AdaptOk(r, u, c, n, numQ + 1) && ParentsBefore(r)
            && r[u].history == Outcomes(hist + [res])
            && r[u].weight == SeedWeight(c, numQ) + Share(EdgeOf(ns[t], res), ns[t].weight)
            && |r| == |ns| + 2
            && forall k :: 0 <= k < |ns| - 2 ==> r[k] == ns[k]
  {
    var u := Next(ns[t], res).value;
    var w := Share(EdgeOf(ns[t], res), ns[t].weight);
    var r := AdaptStep(ns, t, res, c, numQ + 1);
    assert ns[u] == NewNode(SeedWeight(c, numQ), c.sw, ns[t].history + [Outcome(res)], Some(t));
    assert Outcomes(hist + [res]) == Outcomes(hist) + [Outcome(res)] by {
      assert (hist + [res])[..|hist|] == hist;
    }
    if c.depth == 0 && 0.0 <= c.sw <= 1.0 && 0.0 <= c.pr <= 1.0 {
      ShareWithin(EdgeOf(ns[t], res), ns[t].weight);
      assert SeedWeight(c, numQ) == 0.0;
    }
  }

  /** The chain half of `_do_tree_update`: chain node `k + 1` becomes the
      one to test, with its local alpha. */
  function ChainStep(ns: seq<Node>, k: NodeId, c: Config): seq<Node>
    requires k + 1 < |ns|
  {
    ns[k + 1 := ns[k + 1].(localAlpha := Some(Share(c.alpha, ns[k + 1].weight)))]
  }

  /** The node list once both tests of a query are recorded: chain node
      `k` holds its loss differences and threshold, and the active node
      `tt` its loss differences. */
  function Tested(ns: seq<Node>, k: NodeId, chainLosses: seq<real>, chainThres: real,
                  tt: NodeId, adaptLosses: seq<real>): seq<Node>
    requires k < |ns| && tt < |ns|
  {
    ns[k := SetTestThres(ObserveLosses(ns[k], chainLosses), chainThres)][tt := ObserveLosses(ns[tt], adaptLosses)]
  }

  /** The node list after a whole `_do_tree_update` from query `numQ`:
      the adaptive step, then (unless node `numQ` was the chain's last)
      the chain step. */
  function Updated(ns: seq<Node>, tt: NodeId, numQ: nat, c: Config, n: nat, adaptRes: int): seq<Node>
    requires tt < |ns| && Next(ns[tt], adaptRes).Some? && Next(ns[tt], adaptRes).value < |ns| && numQ < |ns|
  {
    var a := AdaptStep(ns, tt, adaptRes, c, numQ + 1);
    if numQ < n then ChainStep(a, numQ, c) else a
  }

  /** `r` is the node list after query `k` of a valid state `ns` with
      active node `tt`: both tests recorded (chain node `k` with the
      threshold `r` keeps on it), then the whole update on `adaptRes`; the
      nodes before `k` are as they were. */
  ghost predicate QueryDone(ns: seq<Node>, k: NodeId, chainLosses: seq<real>, tt: NodeId, adaptLosses: seq<real>,
                            c: Config, n: nat, adaptRes: int, r: seq<Node>)
  {
    && k < |ns| && k < tt < |ns| && k < |r| && r[k].testThres.Some?
    && Next(ns[tt], adaptRes).Some? && Next(ns[tt], adaptRes).value < |ns|
    && r[..k] == ns[..k]
    && r == Updated(Tested(ns, k, chainLosses, r[k].testThres.value, tt, adaptLosses), tt, k, c, n, adaptRes)
  }

  /** Both tests recorded on `ns`, then the whole update, from a list
      whose nodes up to `k` the update leaves alone, is `QueryDone`. */
  lemma QueryDoneFrom(ns: seq<Node>, k: NodeId, chainLosses: seq<real>, tt: NodeId, adaptLosses: seq<real>,
                      c: Config, n: nat, adaptRes: int, mid: seq<Node>, r: seq<Node>)
    requires k < tt < |ns| && Next(ns[tt], adaptRes).Some? && Next(ns[tt], adaptRes).value < |ns|
    requires k < |mid| && mid[k].testThres.Some?
    requires mid == Tested(ns, k, chainLosses, mid[k].testThres.value, tt, adaptLosses)
    requires k < |r| && r[..k + 1] == mid[..k + 1]
    requires r == Updated(mid, tt, k, c, n, adaptRes)
    ensures QueryDone(ns, k, chainLosses, tt, adaptLosses, c, n, adaptRes, r)
  {
    assert r[k] == mid[k];
    assert r[..k] == ns[..k] by {
      assert mid[..k] == ns[..k];
      assert r[..k] == r[..k + 1][..k];
    }
  }

  /** A whole update from a valid state in which chain node `numQ` has
      just been tested gives a valid state again, with one more query and
      both outcomes logged; the new active node holds its seed plus what
      the old one passed along the edge taken, and every node built before
      the old active node's children keeps its value, except the chain
      node activated next. */
  lemma UpdateOk(ns: seq<Node>, tt: NodeId, numQ: nat, thist: seq<int>, phist: seq<int>,
                 c: Config, n: nat, parRes: int, adaptRes: int)
    requires ParOk(ns, Some(numQ), tt, numQ, thist, phist, c, n)
    requires ns[numQ].testLosses.Some? && ns[numQ].testThres.Some?
    ensures Next(ns[tt], adaptRes).Some? && tt < Next(ns[tt], adaptRes).value < |ns| && numQ < |ns|
    ensures var r := Updated(ns, tt, numQ, c, n, adaptRes);
            var u := Next(ns[tt], adaptRes).value;
            && ParOk(r, if numQ < n then Some(numQ + 1) else None, u, numQ + 1,
                     thist + [adaptRes], phist + [parRes], c, n)
            && r[u].weight == SeedWeight(c, numQ) + Share(EdgeOf(ns[tt], adaptRes), ns[tt].weight)
            && |r| == |ns| + 2
            && (forall k :: 0 <= k < |ns| - 2 && k != numQ + 1 ==> r[k] == ns[k])
            && (forall k :: n < k < |ns| - 2 ==> r[k] == ns[k])
  {
    AdaptStepOk(ns, tt, c, n, numQ, thist, adaptRes);
    var a := AdaptStep(ns, tt, adaptRes, c, numQ + 1);
    var u := Next(ns[tt], adaptRes).value;
    assert forall k :: 0 <= k <= n ==> a[k] == ns[k];
    assert ChainOk(a, c, n);
    assert ChainTested(a, numQ + 1);
    if numQ < n {
      ChainStepOk(a, u, numQ, thist + [adaptRes], phist + [parRes], c, n);
    }
  }

  /** Activating chain node `numQ + 1` once the adaptive step of query
      `numQ` is done completes a valid state, and changes no other node. */
  lemma ChainStepOk(a: seq<Node>, u: NodeId, numQ: nat, thist: seq<int>, phist: seq<int>, c: Config, n: nat)
    requires numQ < n && |thist| == numQ + 1 && |phist| == numQ + 1
    requires ChainOk(a, c, n) && ChainTested(a, numQ + 1) && ParentsBefore(a)
    requires AdaptOk(a, u, c, n, numQ + 1) && a[u].history == Outcomes(thist)
    ensures var b := ChainStep(a, numQ, c);
            && ParOk(b, Some(numQ + 1), u, numQ + 1, thist, phist, c, n)
            && forall k :: 0 <= k < |a| && k != numQ + 1 ==> b[k] == a[k]
  {
    var b := ChainStep(a, numQ, c);
    AdaptFrame(a, u, c, n, numQ + 1, numQ + 1, b[numQ + 1]);
    assert forall k :: 0 <= k < |a| && k != numQ + 1 ==> b[k] == a[k];
    assert Bare(b[numQ + 1]) == Bare(a[numQ + 1]) && b[numQ + 1].parent == a[numQ + 1].parent;
    assert ChainOk(b, c, n);
    assert ChainTested(b, numQ + 1);
    assert ParentsBefore(b);
  }

  /** A change to a chain node leaves the adaptive tree's invariant alone. */
  lemma AdaptFrame(a: seq<Node>, u: NodeId, c: Config, n: nat, numQ: int, j: NodeId, v: Node)
    requires AdaptOk(a, u, c, n, numQ) && j <= n
    ensures AdaptOk(a[j := v], u, c, n, numQ)
  {
    var b := a[j := v];
    assert b[u] == a[u] && b[|b| - 2] == a[|a| - 2] && b[|b| - 1] == a[|a| - 1];
  }

  /** The first `i` chain nodes as the construction loop of
      `set_num_queries` leaves them: all but the last linked to their
      successor, and the root with its local alpha. */
  ghost predicate ChainBuilt(ns: seq<Node>, c: Config, n: nat, i: nat)
  {
    && 1 <= i <= n + 1 && |ns| == i && ParentsBefore(ns)
    && (forall k :: 0 <= k < i - 1 ==> Bare(ns[k]) == ChainNode(c, n, k))
    && Bare(ns[i - 1]) == ChainNode(c, n, i - 1).(success := None, failure := None)
    && ns[0].localAlpha == Some(Share(c.alpha, ns[0].weight))
  }

  /** The chain's root alone, with its local alpha, starts the loop. */
  lemma ChainStart(c: Config, n: nat)
    ensures var root := NewNode(c.fpw * c.pr, 1.0, [], None);
            ChainBuilt([root.(localAlpha := Some(Share(c.alpha, root.weight)))], c, n, 1)
  {
    assert Nones(0) == [];
  }

  /** One round of the loop appends node `i` with its prespecified weight
      and links node `i - 1` to it; after round `n` the chain is complete. */
  lemma ChainGrow(ns: seq<Node>, c: Config, n: nat, i: nat, w: real)
    requires ChainBuilt(ns, c, n, i) && i <= n
    requires w == (if i < n then (1.0 - c.fpw) / n as real * c.pr else 0.0)
    ensures var m := ns + [NewNode(w, 1.0, Nones(i), Some(i - 1))];
            var m2 := m[i - 1 := m[i - 1].(failure := Some(i), success := Some(i))];
            ChainBuilt(m2[i := m2[i].(failure := None)], c, n, i + 1)
  {
    var m := ns + [NewNode(w, 1.0, Nones(i), Some(i - 1))];
    var m2 := m[i - 1 := m[i - 1].(failure := Some(i), success := Some(i))];
    var m3 := m2[i := m2[i].(failure := None)];
    assert Bare(m3[i - 1]) == ChainNode(c, n, i - 1);
    assert forall k :: 0 <= k < i - 1 ==> m3[k] == ns[k];
    assert ParentsBefore(m3);
  }

  /** The graph `set_num_queries` builds (the chain, then the adaptive
      root of weight `1 - pr` with its local alpha and its children) is a
      valid state with no query made. */
  lemma SetupOk(chain: seq<Node>, c: Config, n: nat)
    requires ChainBuilt(chain, c, n, n + 1)
    ensures var root := NewNode(1.0 - c.pr, c.sw, [], None);
            ParOk(WithSeeds(chain + [root.(localAlpha := Some(Share(c.alpha, root.weight)))], n + 1, c, 0),
                  Some(0), n + 1, 0, [], [], c, n)
  {
    var root := NewNode(1.0 - c.pr, c.sw, [], None);
    var ns := chain + [root.(localAlpha := Some(Share(c.alpha, root.weight)))];
    var r := WithSeeds(ns, n + 1, c, 0);
    assert forall k :: 0 <= k <= n ==> r[k] == chain[k];
    assert ChainOk(r, c, n);
    assert ParentsBefore(ns);
    assert ParentsBefore(r);
    assert AdaptOk(r, n + 1, c, n, 0);
  }

  /** Recording a test on node `k` (only its two test fields change, and
      records are only ever added) keeps a valid state valid. */
  lemma RecordParOk(ns: seq<Node>, pt: Option<NodeId>, tt: NodeId, numQ: int, thist: seq<int>, phist: seq<int>,
                    c: Config, n: nat, k: NodeId, v: Node)
    requires ParOk(ns, pt, tt, numQ, thist, phist, c, n) && (k <= n || k == tt)
    requires v.(testLosses := ns[k].testLosses, testThres := ns[k].testThres) == ns[k]
    requires ns[k].testLosses.Some? ==> v.testLosses.Some?
    requires ns[k].testThres.Some? ==> v.testThres.Some?
    ensures ParOk(ns[k := v], pt, tt, numQ, thist, phist, c, n)
  {
    var r := ns[k := v];
    assert k < tt || k == tt;
    assert v.parent == ns[k].parent && v.history == ns[k].history && v.weight == ns[k].weight;
    assert v.localAlpha == ns[k].localAlpha && v.success == ns[k].success && v.failure == ns[k].failure;
    assert Bare(v) == Bare(ns[k]);
    assert ChainOk(r, c, n);
    assert ChainTested(r, numQ);
    assert r[|ns| - 2] == ns[|ns| - 2] && r[|ns| - 1] == ns[|ns| - 1];
    assert Seeded(r, tt, c, numQ);
    assert AdaptOk(r, tt, c, n, numQ);
    assert ParentsBefore(r);
  }
}

/** `GraphicalParallelMTP`: each query tests the next node of the
    prespecified chain and the active node of the adaptive tree, both with
    correlation-aware thresholds, and then advances both. */
module ParallelMtp {
  import opened Common
  import opened AlphaWeights
  import opened SrgpNode
  import opened Thresholds
  import opened GraphicalTree
  import opened ParallelTree
  import Bonferroni

  class GraphicalParallelMTP {
    const alpha: real
    const successWeight: real
    const parallelRatio: real
    const firstPresWeight: real
    const allocMaxDepth: nat
    var numAdaptQueries: nat
    var numQueries: int
    /** Outcomes of the adaptive tests and of the chain's tests. */
    var testHist: seq<int>
    var parallelTestHist: seq<int>
    /** Every node built by the latest `SetNumQueries`. */
    var nodes: seq<Node>
    /** The chain node to test next; `None` once the chain is used up. */
    var parallelTree: Option<NodeId>
    /** The active node of the adaptive tree. */
    var testTree: NodeId

    /** `__init__` (the unused base threshold and scratch file are
        omitted); the graph does not exist until `SetNumQueries`. */
    constructor (alpha: real, successWeight: real, parallelRatio: real, firstPresWeight: real, allocMaxDepth: nat)
      ensures this.alpha == alpha && this.successWeight == successWeight
      ensures this.parallelRatio == parallelRatio && this.firstPresWeight == firstPresWeight
      ensures this.allocMaxDepth == allocMaxDepth
      ensures nodes == [] && testHist == [] && parallelTestHist == [] && numQueries == 0
    {
      this.alpha := alpha;
      this.successWeight := successWeight;
      this.parallelRatio := parallelRatio;
      this.firstPresWeight := firstPresWeight;
      this.allocMaxDepth := allocMaxDepth;
      numAdaptQueries := 0;
      numQueries := 0;
      testHist := [];
      parallelTestHist := [];
      nodes := [];
      parallelTree := None;
      testTree := 0;
    }

    function Cfg(): Config
    {
      Config(alpha, successWeight, parallelRatio, firstPresWeight, allocMaxDepth)
    }

    ghost predicate Valid()
      reads this
    {
      ParOk(nodes, parallelTree, testTree, numQueries, testHist, parallelTestHist, Cfg(), numAdaptQueries)
    }

    /** `_create_children(node)`. */
    method CreateChildren(node: NodeId)
      requires node < |nodes|
      modifies this`nodes
      ensures nodes == WithSeeds(old(nodes), node, Cfg(), numQueries)
    {
      var childWeight := if numQueries < allocMaxDepth
                         then (1.0 - parallelRatio) / Bonferroni.Pow2(allocMaxDepth) as real
                         else 0.0;
      var h := nodes[node].history;
      nodes := nodes + [NewNode(childWeight, successWeight, h + [Some(1)], Some(node))];
      nodes := nodes[node := nodes[node].(success := Some(|nodes| - 1))];
      nodes := nodes + [NewNode(childWeight, successWeight, h + [Some(0)], Some(node))];
      nodes := nodes[node := nodes[node].(failure := Some(|nodes| - 1))];
    }

    /** The chain part of `set_num_queries`: its root, active with its
        local alpha, and the loop that appends and links nodes `1 .. n`. */
    method BuildChain(n: nat)
      modifies this`nodes, this`parallelTree
      ensures ChainBuilt(nodes, Cfg(), n, n + 1) && parallelTree == Some(0)
    {
      nodes := [NewNode(firstPresWeight * parallelRatio, 1.0, [], None)];
      nodes := nodes[0 := nodes[0].(localAlpha := Some(Share(alpha, nodes[0].weight)))];
      parallelTree := Some(0);
      ChainStart(Cfg(), n);
      var curr := 0;
      var i := 1;
      while i < n + 1
        invariant 1 <= i <= n + 1 && curr == i - 1
        invariant ChainBuilt(nodes, Cfg(), n, i)
        invariant parallelTree == Some(0)
      {
        ChainGrow(nodes, Cfg(), n, i, if i < n then (1.0 - firstPresWeight) / n as real * parallelRatio else 0.0);
        var weight := if i < n then (1.0 - firstPresWeight) / n as real * parallelRatio else 0.0;
        var next := NewNode(weight, 1.0, Nones(i), Some(curr));
        nodes := nodes + [next];
        nodes := nodes[curr := nodes[curr].(failure := Some(i), success := Some(i))];
        curr := i;
        nodes := nodes[curr := nodes[curr].(failure := None)];
        i := i + 1;
      }
    }

    /** `set_num_queries`: builds the chain of `n + 1` prespecified nodes,
        the first one active with its local alpha, and the adaptive root
        with its local alpha and its two children; no query made yet. */
    method SetNumQueries(n: nat)
      modifies this
      ensures Valid()
      ensures numAdaptQueries == n && numQueries == 0 && testHist == [] && parallelTestHist == []
      ensures parallelTree == Some(0) && testTree == n + 1 && |nodes| == n + 4
      ensures nodes[testTree].weight == 1.0 - parallelRatio && nodes[testTree].history == []
    {
      numQueries := 0;
      testHist := [];
      parallelTestHist := [];
      numAdaptQueries := n;
      BuildChain(n);
      ghost var chain := nodes;
      testTree := |nodes|;
      var root := NewNode(1.0 - parallelRatio, successWeight, [], None);
      root := root.(localAlpha := Some(Share(alpha, root.weight)));
      nodes := nodes + [root];
      CreateChildren(testTree);
      SetupOk(chain, Cfg(), n);
      assert nodes == WithSeeds(chain + [root], n + 1, Cfg(), 0);
    }

    /** `_do_tree_update`, called once chain node `numQueries` has been
        tested: one more query with both outcomes logged; the adaptive tree
        moves to the child on `adaptRes`, which earns the active node's
        weight times that edge on top of its seed and gets its own
        children; the chain advances to the next node and activates it,
        and fails when there is none, after everything else has changed. */
    method DoTreeUpdate(parRes: int, adaptRes: int) returns (r: Result<()>)
      requires Valid() && parallelTree.Some?
      requires nodes[parallelTree.value].testLosses.Some? && nodes[parallelTree.value].testThres.Some?
      modifies this
      ensures Valid()
      ensures numQueries == old(numQueries) + 1
      ensures testHist == old(testHist) + [adaptRes] && parallelTestHist == old(parallelTestHist) + [parRes]
      ensures r.Err? <==> old(numQueries) == numAdaptQueries
      ensures r.Err? ==> r.fault == ChainExhausted
      ensures testTree == Next(old(nodes)[old(testTree)], adaptRes).value
      ensures testTree < |nodes|
      ensures nodes[testTree].weight
                == SeedWeight(Cfg(), old(numQueries)) + Share(EdgeOf(old(nodes)[old(testTree)], adaptRes), old(nodes)[old(testTree)].weight)
      ensures nodes[testTree].localAlpha == Some(Share(alpha, nodes[testTree].weight))
      ensures nodes == Updated(old(nodes), old(testTree), old(numQueries), Cfg(), numAdaptQueries, adaptRes)
      ensures nodes[..old(numQueries) + 1] == old(nodes)[..old(numQueries) + 1]
      ensures nodes[old(testTree)] == old(nodes)[old(testTree)]
    {
      ghost var ns, tt, k := nodes, testTree, parallelTree.value;
      UpdateOk(ns, tt, k, testHist, parallelTestHist, Cfg(), numAdaptQueries, parRes, adaptRes);
      numQueries := numQueries + 1;
      parallelTestHist := parallelTestHist + [parRes];
      testHist := testHist + [adaptRes];
      MoveAdaptive(adaptRes);
      var more := AdvanceChain();
      if !more {
        r := Err(ChainExhausted);
        return;
      }
      r := Ok(());
    }

    /** The adaptive half of `_do_tree_update`: the successor on
        `adaptRes` earns the active node's weight times that edge, becomes
        the active node with its local alpha, and gets its children. */
    method MoveAdaptive(adaptRes: int)
      requires testTree < |nodes| && Next(nodes[testTree], adaptRes).Some?
      requires Next(nodes[testTree], adaptRes).value < |nodes|
      modifies this`nodes, this`testTree
      ensures testTree == Next(old(nodes)[old(testTree)], adaptRes).value
      ensures nodes == AdaptStep(old(nodes), old(testTree), adaptRes, Cfg(), numQueries)
    {
      var t := nodes[testTree];
      var next := if adaptRes == 1 then t.success.value else t.failure.value;
      var edge := if adaptRes == 1 then t.successEdge else t.failureEdge;
      var earned := Earn(nodes[next], Share(edge, t.weight));
      testTree := next;
      nodes := nodes[testTree := earned.(localAlpha := Some(Share(alpha, earned.weight)))];
      CreateChildren(testTree);
    }

    /** The chain half of `_do_tree_update`: the chain moves to the
        successor of its current node and activates it; `false` when there
        is none (the source then fails on the missing node). */
    method AdvanceChain() returns (more: bool)
      requires parallelTree.Some? && parallelTree.value < |nodes|
      requires nodes[parallelTree.value].success.Some? ==> nodes[parallelTree.value].success == Some(parallelTree.value + 1)
      requires parallelTree.value + 1 < |nodes|
      modifies this`nodes, this`parallelTree
      ensures parallelTree == old(nodes)[old(parallelTree).value].success
      ensures more <==> parallelTree.Some?
      ensures more ==> nodes == ChainStep(old(nodes), old(parallelTree).value, Cfg())
      ensures !more ==> nodes == old(nodes)
    {
      parallelTree := nodes[parallelTree.value].success;
      if parallelTree.None? {
        return false;
      }
      nodes := nodes[parallelTree.value := nodes[parallelTree.value].(localAlpha := Some(Share(alpha, nodes[parallelTree.value].weight)))];
      more := true;
    }

    /** `_get_test_compare_ffs`: the chain's current node records the loss
        differences and the threshold solved at its local alpha from the
        tests recorded along the chain before it, and the outcome compares
        the t-statistic with that threshold. Once the chain is used up it
        fails and nothing changes. */
    method TestChain(num: Numerics, lossDiffs: seq<real>, lossMean: real, stdErr: real) returns (r: Result<int>)
      requires Valid()
      modifies this`nodes
      ensures Valid()
      ensures r.Err? <==> parallelTree.None?
      ensures r.Err? ==> r.fault == ChainExhausted && nodes == old(nodes)
      ensures r.Ok? ==>
                var k := parallelTree.value;
                && |nodes| == |old(nodes)|
                && (forall j :: 0 <= j < |nodes| && j != k ==> nodes[j] == old(nodes)[j])
                && nodes[k].(testLosses := old(nodes)[k].testLosses, testThres := old(nodes)[k].testThres) == old(nodes)[k]
                && nodes[k].testLosses == Some(lossDiffs)
                && nodes[k].testThres == LineageThres(num, old(nodes), old(nodes)[k].parent, lossDiffs, Share(alpha, old(nodes)[k].weight))
                && nodes[k].testThres.Some?
                && r.value == FfsOutcome(lossMean, stdErr, nodes[k].testThres.value)
                && nodes == old(nodes)[k := SetTestThres(ObserveLosses(old(nodes)[k], lossDiffs), nodes[k].testThres.value)]
    {
      if parallelTree.None? {
        return Err(ChainExhausted);
      }
      var k := parallelTree.value;
      ghost var ns := nodes;
      ChainReady(num, nodes, Cfg(), numAdaptQueries, k, lossDiffs, Share(alpha, nodes[k].weight));
      RecordParOk(nodes, parallelTree, testTree, numQueries, testHist, parallelTestHist, Cfg(), numAdaptQueries,
                  k, ObserveLosses(nodes[k], lossDiffs));
      nodes := nodes[k := ObserveLosses(nodes[k], lossDiffs)];
      LineageThresSame(num, ns, nodes, nodes[k].parent, lossDiffs, Share(alpha, nodes[k].weight));
      var priorLosses := Lineage(nodes, nodes[k].parent, LossesOf);
      var priorThres := Lineage(nodes, nodes[k].parent, ThresOf);
      var estCorr := EstCorr(num, priorLosses.value, lossDiffs);
      var thres := SolveThres(num, estCorr, priorThres.value, nodes[k].localAlpha.value);
      RecordParOk(nodes, parallelTree, testTree, numQueries, testHist, parallelTestHist, Cfg(), numAdaptQueries,
                  k, SetTestThres(nodes[k], thres));
      nodes := nodes[k := SetTestThres(nodes[k], thres)];
      r := Ok(FfsOutcome(lossMean, stdErr, thres));
    }

    /** `_get_test_compare_corr`: the active node records the loss
        differences, and the outcome compares the t-statistic with the
        threshold solved at the active node's local alpha from the chain's
        tests up to and including the current one (none once the chain is
        used up); the threshold is not recorded. */
    method TestAdaptive(num: Numerics, lossDiffs: seq<real>, lossMean: real, stdErr: real) returns (r: int)
      requires Valid()
      requires parallelTree.Some? ==> nodes[parallelTree.value].testLosses.Some? && nodes[parallelTree.value].testThres.Some?
      modifies this`nodes
      ensures Valid()
      ensures nodes == old(nodes)[testTree := ObserveLosses(old(nodes)[testTree], lossDiffs)]
      ensures LineageThres(num, old(nodes), parallelTree, lossDiffs, Share(alpha, old(nodes)[testTree].weight)).Some?
      ensures r == FfsOutcome(lossMean, stdErr,
                              LineageThres(num, old(nodes), parallelTree, lossDiffs, Share(alpha, old(nodes)[testTree].weight)).value)
    {
      ghost var ns := nodes;
      ghost var level := Share(alpha, nodes[testTree].weight);
      if parallelTree.Some? {
        ChainReady(num, nodes, Cfg(), numAdaptQueries, parallelTree.value, lossDiffs, level);
      }
      RecordParOk(nodes, parallelTree, testTree, numQueries, testHist, parallelTestHist, Cfg(), numAdaptQueries,
                  testTree, ObserveLosses(nodes[testTree], lossDiffs));
      nodes := nodes[testTree := ObserveLosses(nodes[testTree], lossDiffs)];
      LineageThresSame(num, ns, nodes, parallelTree, lossDiffs, level);
      var priorLosses := Lineage(nodes, parallelTree, LossesOf);
      var priorThres := Lineage(nodes, parallelTree, ThresOf);
      var estCorr := EstCorr(num, priorLosses.value, lossDiffs);
      var thres := SolveThres(num, estCorr, priorThres.value, nodes[testTree].localAlpha.value);
      r := FfsOutcome(lossMean, stdErr, thres);
    }

    /** The two tests of `get_test_compare`, chain first: they record
        their loss differences (and the chain its threshold) and return
        both outcomes; the adaptive threshold is solved at the active
        node's local alpha from the chain's tests up to and including the
        one just made. Once the chain is used up the call fails and
        nothing changes. */
    method TestBoth(num: Numerics, predefLosses: seq<real>, predefMean: real, predefStdErr: real,
                    lossDiffs: seq<real>, lossMean: real, stdErr: real) returns (r: Result<(int, int)>)
      requires Valid()
      modifies this`nodes
      ensures Valid()
      ensures r.Err? <==> parallelTree.None?
      ensures r.Err? ==> r.fault == ChainExhausted && nodes == old(nodes)
      ensures r.Ok? ==>
                var k := parallelTree.value;
                && |nodes| == |old(nodes)|
                && (forall j :: 0 <= j < |nodes| && j != k && j != testTree ==> nodes[j] == old(nodes)[j])
                && nodes[k].testLosses == Some(predefLosses)
                && nodes[k].testThres == LineageThres(num, old(nodes), old(nodes)[k].parent, predefLosses, Share(alpha, old(nodes)[k].weight))
                && nodes[k].testThres.Some?
                && r.value.0 == FfsOutcome(predefMean, predefStdErr, nodes[k].testThres.value)
      ensures r.Ok? ==>
                var k := parallelTree.value;
                var level := Share(alpha, old(nodes)[testTree].weight);
                && nodes[testTree] == ObserveLosses(old(nodes)[testTree], lossDiffs)
                && LineageThres(num, nodes, Some(k), lossDiffs, level).Some?
                && r.value.1 == FfsOutcome(lossMean, stdErr, LineageThres(num, nodes, Some(k), lossDiffs, level).value)
      ensures r.Ok? ==>
                var k := parallelTree.value;
                k != testTree && nodes == Tested(old(nodes), k, predefLosses, nodes[k].testThres.value, testTree, lossDiffs)
    {
      var parRes := TestChain(num, predefLosses, predefMean, predefStdErr);
      if parRes.Err? {
        return Err(parRes.fault);
      }
      ghost var n1 := nodes;
      var adaptRes := TestAdaptive(num, lossDiffs, lossMean, stdErr);
      LineageThresSame(num, n1, nodes, parallelTree, lossDiffs, Share(alpha, n1[testTree].weight));
      r := Ok((parRes.value, adaptRes));
    }

    /** `get_test_compare`: both tests, then the update. The call fails
        once every chain node has been tested: before anything changes
        when the chain was already used up, and after the update (the
        adaptive tree has moved) when its last node was tested by this
        call. Otherwise chain node `k` (the number of earlier queries)
        records its test, both outcomes are logged, the adaptive outcome is
        returned, and the adaptive tree moves to the child on that
        outcome. */
    method GetTestCompare(num: Numerics, predefLosses: seq<real>, predefMean: real, predefStdErr: real,
                          lossDiffs: seq<real>, lossMean: real, stdErr: real) returns (r: Result<int>)
      requires Valid()
      modifies this
      ensures Valid()
      ensures r.Err? <==> old(numQueries) >= numAdaptQueries
      ensures r.Err? ==> r.fault == ChainExhausted
      ensures old(numQueries) > numAdaptQueries ==>
                && nodes == old(nodes) && numQueries == old(numQueries) && testTree == old(testTree)
                && testHist == old(testHist) && parallelTestHist == old(parallelTestHist)
      ensures old(numQueries) <= numAdaptQueries ==>
                var k := old(numQueries);
                && numQueries == k + 1
                && nodes[k].testLosses == Some(predefLosses)
                && nodes[k].testThres == LineageThres(num, old(nodes), old(nodes)[k].parent, predefLosses, Share(alpha, old(nodes)[k].weight))
                && nodes[k].testThres.Some?
                && parallelTestHist == old(parallelTestHist) + [FfsOutcome(predefMean, predefStdErr, nodes[k].testThres.value)]
      ensures old(numQueries) <= numAdaptQueries ==>
                var k := old(numQueries);
                var level := Share(alpha, old(nodes)[old(testTree)].weight);
                && LineageThres(num, nodes, Some(k), lossDiffs, level).Some?
                && testHist == old(testHist) + [FfsOutcome(lossMean, stdErr, LineageThres(num, nodes, Some(k), lossDiffs, level).value)]
                && (r.Ok? ==> r.value == testHist[k])
                && testTree == Next(old(nodes)[old(testTree)], testHist[k]).value
                && nodes[old(testTree)].testLosses == Some(lossDiffs)
      ensures old(numQueries) <= numAdaptQueries ==>
                var k := old(numQueries);
                && testTree < |nodes|
                && nodes[testTree].weight
                     == SeedWeight(Cfg(), k) + Share(EdgeOf(old(nodes)[old(testTree)], testHist[k]), old(nodes)[old(testTree)].weight)
                && nodes[testTree].localAlpha == Some(Share(alpha, nodes[testTree].weight))
      ensures old(numQueries) <= numAdaptQueries ==>
                QueryDone(old(nodes), old(numQueries), predefLosses, old(testTree), lossDiffs,
                          Cfg(), numAdaptQueries, testHist[old(numQueries)], nodes)
    {
      var res := TestBoth(num, predefLosses, predefMean, predefStdErr, lossDiffs, lossMean, stdErr);
      if res.Err? {
        return Err(res.fault);
      }
      ghost var n2, k, tt := nodes, numQueries, testTree;
      var u := DoTreeUpdate(res.value.0, res.value.1);
      LineageThresPrefix(num, n2, nodes, k, lossDiffs, Share(alpha, old(nodes)[old(testTree)].weight));
      QueryDoneFrom(old(nodes), k, predefLosses, tt, lossDiffs, Cfg(), numAdaptQueries, res.value.1, n2, nodes);
      if u.Err? {
        return Err(u.fault);
      }
      r := Ok(res.value.1);
    }
  }
}
