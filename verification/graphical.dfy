/** The tree-structured alpha budget of `GraphicalBonfMTP` and its
    correlation-aware subclass `GraphicalFFSMTP`, on node lists: what
    building children, spreading a weight, approving and rejecting do to
    the list, the invariant those steps keep, and the earlier siblings'
    records a correlation-aware test reads. */
module GraphicalTree {
  import opened Common
  import opened AlphaWeights
  import opened SrgpNode
  import opened Thresholds

  /** `[0] * i`. */
  function Zeros(i: nat): (r: seq<Mark>)
    ensures |r| == i
  {
    if i == 0 then [] else Zeros(i - 1) + [Some(0)]
  }

  /** History of child `i` built by `_create_children(node, q)`: the parent's
      history, then a 1 unless the parent is the start node (`q == -1`), then
      `i` zeros, one per earlier sibling that will have failed before it. */
  function ChildHistory(h: seq<Mark>, q: int, i: nat): seq<Mark>
  {
    h + (if q >= 0 then [Some(1)] else []) + Zeros(i)
  }

  /** How an outcome shows in a node's history: an approval (1) as 1,
      anything else as the 0 of a failed test. */
  function Outcome(r: int): Mark
  {
    Some(if r == 1 then 1 else 0)
  }

  function Outcomes(rs: seq<int>): (r: seq<Mark>)
    ensures |r| == |rs|
  {
    if |rs| == 0 then [] else Outcomes(rs[..|rs| - 1]) + [Outcome(rs[|rs| - 1])]
  }

  /** `k` consecutive positions starting at `lo`. */
  function Range(lo: nat, k: nat): (r: seq<NodeId>)
    ensures |r| == k
  {
    if k == 0 then [] else Range(lo, k - 1) + [lo + k - 1]
  }

  lemma {:induction false} RangeAt(lo: nat, k: nat)
    ensures forall j :: 0 <= j < k ==> Range(lo, k)[j] == lo + j
  {
    if k > 0 {
      RangeAt(lo, k - 1);
    }
  }

  /** The last query index at which the tree moved: updates past
      `numAdaptQueries` leave it frozen at `numAdaptQueries - 1`. */
  function LastMove(numQueries: int, n: nat): int
  {
    if numQueries < n then numQueries else n - 1
  }

  /** The children of `p` occupy a block of later positions, each pointing
      back to `p`, with one fraction per child. */
  ghost predicate Layout(ns: seq<Node>, p: NodeId)
  {
    && p < |ns|
    && |ns[p].kids.fractions| == |ns[p].kids.ids|
    && (|ns[p].kids.ids| > 0 ==>
          && p < ns[p].kids.ids[0]
          && ns[p].kids.ids[0] + |ns[p].kids.ids| <= |ns|)
    && (forall k :: 0 <= k < |ns[p].kids.ids| ==> ns[p].kids.ids[k] == ns[p].kids.ids[0] + k)
    && forall k :: 0 <= k < |ns[p].kids.ids| ==> ns[ns[p].kids.ids[k]].parent == Some(p)
  }

  /** Node `t` was made active at query `q`: its `n - q - 1` children are
      built exactly as `_create_children(t, q)` leaves them. */
  ghost predicate ActiveOk(ns: seq<Node>, t: NodeId, q: int, n: nat, sw: real)
  {
    && q >= -1 && Layout(ns, t)
    && |ns[t].kids.ids| == ChildCount(q, n)
    && ns[t].kids.fractions == ChildWeights(sw, q, n)
    && forall k :: 0 <= k < |ns[t].kids.ids| ==>
         ns[ns[t].kids.ids[k]] == NewNode(0.0, sw, ChildHistory(ns[t].history, q, k), Some(t))
  }

  /** Node `p` is the parent of the active node, which is its child `i`,
      at query `q`: `p` was made active at query `q - i - 1`, then
      approved, so every child carries its fraction of `p`'s weight and its
      history; `p`'s weight lies in [0,1] when the success weight does. */
  ghost predicate ParentOk(ns: seq<Node>, p: NodeId, i: int, q: int, n: nat, sw: real)
  {
    && Layout(ns, p) && 0 <= i <= q
    && |ns[p].kids.ids| == n - q + i
    && ns[p].kids.fractions == ChildWeights(sw, q - i - 1, n)
    && (forall k :: 0 <= k < |ns[p].kids.ids| ==>
          ns[ns[p].kids.ids[k]].weight == Share(ns[p].kids.fractions[k], ns[p].weight))
    && (forall k :: 0 <= k < |ns[p].kids.ids| ==>
          ns[ns[p].kids.ids[k]].history == ChildHistory(ns[p].history, q - i - 1, k))
    && (0.0 <= sw <= 1.0 ==> 0.0 <= ns[p].weight <= 1.0)
  }

  /** The invariant of the tree after `set_num_queries`, on the node list
      `ns`, the start node `s`, the active node `t`, its position `i`, the
      outcome log `hist` and the query counter `numQ`. With no planned
      queries the start node stays active and never gets a local alpha.
      Otherwise, at the last query `q` that moved the tree, the active node
      is child `i` of its parent, both sides of the split hold, its local
      alpha is `alpha * weight`, and its history spells out every recorded
      outcome after the seeded 1. */
  ghost predicate TreeOk(ns: seq<Node>, s: NodeId, t: NodeId, i: int, hist: seq<int>,
                         numQ: int, n: nat, sw: real, alpha: real)
  {
    && s < |ns| && t < |ns| && numQ >= 0
    && if n == 0 then
         && t == s && ns[t].parent == None && ns[t].kids.ids == []
         && ns[t].localAlpha == None && hist == []
       else
         var q := LastMove(numQ, n);
         && ns[t].parent.Some? && ns[t].parent.value < |ns|
         && ParentOk(ns, ns[t].parent.value, i, q, n, sw)
         && ns[ns[t].parent.value].kids.ids[i] == t
         && ActiveOk(ns, t, q, n, sw)
         && ns[t].localAlpha == Some(Share(alpha, ns[t].weight))
         && |hist| == q + 1 && hist[0] == 1 && ns[t].history == Outcomes(hist[1..])
  }

  /** The state between building the start node and the seeded update:
      the start node, of weight 1, is active with its children built for
      query -1 and no local alpha. */
  ghost predicate SeedOk(ns: seq<Node>, s: NodeId, t: NodeId, hist: seq<int>, numQ: int, n: nat, sw: real)
  {
    && numQ == -1 && t == s && s < |ns| && hist == []
    && ns[s].parent == None && ns[s].weight == 1.0 && ns[s].history == []
    && ns[s].localAlpha == None
    && ActiveOk(ns, s, -1, n, sw)
  }

  /** The first `i` nodes of `cs` have had their test run: losses and
      threshold are recorded. */
  ghost predicate Observed(ns: seq<Node>, cs: seq<NodeId>, i: int)
  {
    forall k :: 0 <= k < i && k < |cs| && cs[k] < |ns| ==>
      ns[cs[k]].testLosses.Some? && ns[cs[k]].testThres.Some?
  }

  /** Every earlier sibling of the active node `t`, child `i` of its
      parent, has had its test run. */
  ghost predicate SiblingsDone(ns: seq<Node>, t: NodeId, i: int)
  {
    && t < |ns|
    && (ns[t].parent.Some? && ns[t].parent.value < |ns| ==> Observed(ns, ns[ns[t].parent.value].kids.ids, i))
  }

  /** The children `_create_children` builds for node `p` with history `h`
      at query `q`, in order. */
  function ChildNodes(p: NodeId, h: seq<Mark>, sw: real, q: int, count: nat): (r: seq<Node>)
    ensures |r| == count
  {
    if count == 0 then [] else ChildNodes(p, h, sw, q, count - 1) + [NewNode(0.0, sw, ChildHistory(h, q, count - 1), Some(p))]
  }

  lemma {:induction false} ChildNodeAt(p: NodeId, h: seq<Mark>, sw: real, q: int, count: nat)
    ensures forall k :: 0 <= k < count ==>
              ChildNodes(p, h, sw, q, count)[k] == NewNode(0.0, sw, ChildHistory(h, q, k), Some(p))
  {
    if count > 0 {
      ChildNodeAt(p, h, sw, q, count - 1);
    }
  }

  /** The node list after `_create_children(c, q)`: the new children are
      appended, and `c` points at them and at their fractions. */
  function WithChildren(ns: seq<Node>, c: NodeId, sw: real, q: int, n: nat): (r: seq<Node>)
    requires c < |ns| && q >= -1
    ensures |r| == |ns| + ChildCount(q, n)
  {
    (ns + ChildNodes(c, ns[c].history, sw, q, ChildCount(q, n)))
      [c := ns[c].(kids := Kids(Range(|ns|, ChildCount(q, n)), ChildWeights(sw, q, n)))]
  }

  /** The node list after node `c` becomes active at query `q`: its
      children are built and its local alpha is `alpha * weight`. */
  function Activated(ns: seq<Node>, c: NodeId, sw: real, q: int, n: nat, alpha: real): (r: seq<Node>)
    requires c < |ns| && q >= -1
    ensures |r| == |ns| + ChildCount(q, n)
  {
    var r := WithChildren(ns, c, sw, q, n);
    r[c := r[c].(localAlpha := Some(Share(alpha, r[c].weight)))]
  }

  /** The node list after the first `m` children of `t` received their
      fractions of `t`'s weight. */
  function SpreadUpTo(ns: seq<Node>, t: NodeId, m: nat): (r: seq<Node>)
    requires Layout(ns, t) && m <= |ns[t].kids.ids|
    ensures |r| == |ns|
  {
    if m == 0 then ns
    else
      var r := SpreadUpTo(ns, t, m - 1);
      var c := ns[t].kids.ids[m - 1];
      r[c := r[c].(weight := Share(ns[t].kids.fractions[m - 1], ns[t].weight))]
  }

  /** The new children sit at the end of the list, each a fresh node of
      weight 0 under `c` with its history. */
  lemma WithChildrenNew(ns: seq<Node>, c: NodeId, sw: real, q: int, n: nat)
    requires c < |ns| && q >= -1
    ensures forall j :: |ns| <= j < |ns| + ChildCount(q, n) ==>
      WithChildren(ns, c, sw, q, n)[j] == NewNode(0.0, sw, ChildHistory(ns[c].history, q, j - |ns|), Some(c))
  {
    ChildNodeAt(c, ns[c].history, sw, q, ChildCount(q, n));
  }

  /** `_create_children(c, q)` leaves `c` with `n - q - 1` children and as
      many fractions, the fractions of `ChildWeights`, and child `k` with
      `c`'s history, a 1 unless `c` is the start node, and `k` zeros. */
  lemma WithChildrenActive(ns: seq<Node>, c: NodeId, sw: real, q: int, n: nat)
    requires c < |ns| && q >= -1
    ensures ActiveOk(WithChildren(ns, c, sw, q, n), c, q, n, sw)
  {
    RangeAt(|ns|, ChildCount(q, n));
    WithChildrenNew(ns, c, sw, q, n);
    var r := WithChildren(ns, c, sw, q, n);
    var cs := r[c].kids.ids;
    assert cs == Range(|ns|, ChildCount(q, n));
    assert r[c].history == ns[c].history;
    forall k | 0 <= k < |cs|
      ensures cs[k] == |ns| + k
      ensures r[cs[k]] == NewNode(0.0, sw, ChildHistory(r[c].history, q, k), Some(c))
    {
      assert cs[k] == |ns| + k;
    }
    assert Layout(r, c);
  }

  /** Activating `c` changes no other node that was already there. */
  lemma ActivatedFrame(ns: seq<Node>, c: NodeId, sw: real, q: int, n: nat, alpha: real)
    requires c < |ns| && q >= -1
    ensures forall j :: 0 <= j < |ns| && j != c ==> Activated(ns, c, sw, q, n, alpha)[j] == ns[j]
  {
  }

  /** Activating `c` gives it its children, their fractions and its local
      alpha, and changes nothing else about it. */
  lemma ActivatedSelf(ns: seq<Node>, c: NodeId, sw: real, q: int, n: nat, alpha: real)
    requires c < |ns| && q >= -1
    ensures Activated(ns, c, sw, q, n, alpha)[c]
              == ns[c].(kids := Kids(Range(|ns|, ChildCount(q, n)), ChildWeights(sw, q, n)),
                        localAlpha := Some(Share(alpha, ns[c].weight)))
  {
  }

  /** An activated node is active at query `q`. */
  lemma ActivatedFacts(ns: seq<Node>, c: NodeId, sw: real, q: int, n: nat, alpha: real)
    requires c < |ns| && q >= -1
    ensures ActiveOk(Activated(ns, c, sw, q, n, alpha), c, q, n, sw)
  {
    var w := WithChildren(ns, c, sw, q, n);
    var r := Activated(ns, c, sw, q, n, alpha);
    WithChildrenActive(ns, c, sw, q, n);
    RangeAt(|ns|, ChildCount(q, n));
    assert forall j :: 0 <= j < |w| && j != c ==> r[j] == w[j];
    assert r[c].kids == w[c].kids && r[c].history == w[c].history;
  }

  /** The first `m` children of `t` have their fractions of `t`'s weight;
      every other node is as it was. */
  lemma {:induction false} SpreadUpToAt(ns: seq<Node>, t: NodeId, m: nat)
    requires Layout(ns, t) && m <= |ns[t].kids.ids|
    ensures forall j :: 0 <= j < |ns| && (m == 0 || j < ns[t].kids.ids[0] || j >= ns[t].kids.ids[0] + m) ==>
              SpreadUpTo(ns, t, m)[j] == ns[j]
    ensures forall k :: 0 <= k < m ==>
              SpreadUpTo(ns, t, m)[ns[t].kids.ids[k]]
                == ns[ns[t].kids.ids[k]].(weight := Share(ns[t].kids.fractions[k], ns[t].weight))
  {
    if m > 0 {
      SpreadUpToAt(ns, t, m - 1);
    }
  }

  /** The loop of a success step: child `k` of `t` receives
      `children_weights[k] * weight`, and no other node changes. */
  lemma SpreadFacts(ns: seq<Node>, t: NodeId)
    requires Layout(ns, t)
    ensures forall j :: 0 <= j < |ns| && j !in ns[t].kids.ids ==> SpreadUpTo(ns, t, |ns[t].kids.ids|)[j] == ns[j]
    ensures forall k :: 0 <= k < |ns[t].kids.ids| ==>
              SpreadUpTo(ns, t, |ns[t].kids.ids|)[ns[t].kids.ids[k]]
                == ns[ns[t].kids.ids[k]].(weight := Share(ns[t].kids.fractions[k], ns[t].weight))
  {
    var cs := ns[t].kids.ids;
    SpreadUpToAt(ns, t, |cs|);
    forall j | 0 <= j < |ns| && |cs| > 0 && cs[0] <= j < cs[0] + |cs|
      ensures j in cs
    {
      assert cs[j - cs[0]] == j;
    }
  }

  /** The weights of the nodes `ids`, in order. */
  function WeightsOf(ns: seq<Node>, ids: seq<NodeId>): (r: seq<real>)
    requires AllIds(ns, ids)
    ensures |r| == |ids|
  {
    seq(|ids|, k requires 0 <= k < |ids| => ns[ids[k]].weight)
  }

  /** Conservation: once a node's weight is split, its children's weights
      add up to exactly its own weight. */
  lemma SplitConserves(ns: seq<Node>, p: NodeId, i: int, q: int, n: nat, sw: real)
    requires ParentOk(ns, p, i, q, n, sw) && q < n
    ensures AllIds(ns, ns[p].kids.ids)
    ensures Sum(WeightsOf(ns, ns[p].kids.ids)) == ns[p].weight
  {
    var cs := ns[p].kids.ids;
    var f := ns[p].kids.fractions;
    assert WeightsOf(ns, cs) == Scale(ns[p].weight, f);
    SumScale(ns[p].weight, f);
    ChildWeightsSumToOne(sw, q - i - 1, n);
  }

  /** The history of the next sibling is the active node's followed by one
      failure. */
  lemma NextSiblingHistory(h: seq<Mark>, q: int, i: nat)
    ensures ChildHistory(h, q, i + 1) == ChildHistory(h, q, i) + [Some(0)]
  {
    assert Zeros(i + 1) == Zeros(i) + [Some(0)];
  }

  lemma OutcomesAppend(hist: seq<int>, r: int)
    requires |hist| > 0
    ensures Outcomes((hist + [r])[1..]) == Outcomes(hist[1..]) + [Outcome(r)]
  {
    assert (hist + [r])[1..] == hist[1..] + [r];
  }

  /** A child's weight, its fraction of its parent's, lies in [0,1] when
      the success weight does. */
  lemma ChildWeightInUnit(ns: seq<Node>, p: NodeId, i: int, q: int, n: nat, sw: real)
    requires ParentOk(ns, p, i, q, n, sw) && i < |ns[p].kids.ids| && 0.0 <= sw <= 1.0
    ensures 0.0 <= ns[ns[p].kids.ids[i]].weight <= 1.0
  {
    ChildWeightsInUnit(sw, q - i - 1, n);
    ProductInUnit(ns[p].kids.fractions[i], ns[p].weight);
  }

  /** The active node's local alpha never exceeds the global alpha: the
      start weight is 1 and every later weight is a product of fractions in
      [0,1]. */
  lemma LocalAlphaWithinBudget(ns: seq<Node>, s: NodeId, t: NodeId, i: int, hist: seq<int>,
                               numQ: int, n: nat, sw: real, alpha: real)
    requires TreeOk(ns, s, t, i, hist, numQ, n, sw, alpha)
    requires 0.0 <= sw <= 1.0 && 0.0 <= alpha
    ensures n > 0 ==> ns[t].localAlpha.Some? && 0.0 <= ns[t].localAlpha.value <= alpha
  {
    if n > 0 {
      var w := ns[t].weight;
      ChildWeightInUnit(ns, ns[t].parent.value, i, LastMove(numQ, n), n, sw);
      MulNonneg(alpha, w);
      MulNonneg(alpha, 1.0 - w);
      assert alpha * (1.0 - w) == alpha - alpha * w;
    }
  }

  /** Spreading the weight of `t`, active since query `q - 1`, makes it
      the parent of its first child at query `q`. */
  lemma SpreadOk(ns: seq<Node>, t: NodeId, q: int, n: nat, sw: real)
    requires ActiveOk(ns, t, q - 1, n, sw) && 0 <= q < n
    requires 0.0 <= sw <= 1.0 ==> 0.0 <= ns[t].weight <= 1.0
    ensures ns[t].kids.ids != []
    ensures SpreadUpTo(ns, t, |ns[t].kids.ids|)[t] == ns[t]
    ensures ParentOk(SpreadUpTo(ns, t, |ns[t].kids.ids|), t, 0, q, n, sw)
  {
    SpreadFacts(ns, t);
  }

  /** Activating a node `c` other than `p` that keeps its weight, history
      and parent leaves `p`'s side of the split as it was. */
  lemma ParentOkKept(ns: seq<Node>, r: seq<Node>, p: NodeId, c: NodeId, i: int, q: int, n: nat, sw: real)
    requires ParentOk(ns, p, i, q, n, sw)
    requires |ns| <= |r| && p != c && c < |ns|
    requires forall j :: 0 <= j < |ns| && j != c ==> r[j] == ns[j]
    requires r[c].weight == ns[c].weight && r[c].history == ns[c].history && r[c].parent == ns[c].parent
    ensures ParentOk(r, p, i, q, n, sw)
  {
    assert r[p] == ns[p];
  }

  /** After a success step at query `q` the approved node `t` is the
      parent of the new active node, its first child, which is active with
      its local alpha set. */
  lemma SpreadParentOk(ns: seq<Node>, t: NodeId, q: int, n: nat, sw: real, alpha: real)
    requires ActiveOk(ns, t, q - 1, n, sw) && 0 <= q < n
    requires 0.0 <= sw <= 1.0 ==> 0.0 <= ns[t].weight <= 1.0
    ensures ns[t].kids.ids != []
    ensures var r := Activated(SpreadUpTo(ns, t, |ns[t].kids.ids|), ns[t].kids.ids[0], sw, q, n, alpha);
            var c := ns[t].kids.ids[0];
            && ParentOk(r, t, 0, q, n, sw)
            && r[t].kids == ns[t].kids
            && r[c].parent == Some(t)
            && r[c].history == ChildHistory(ns[t].history, q - 1, 0)
            && r[c].localAlpha == Some(Share(alpha, r[c].weight))
            && ActiveOk(r, c, q, n, sw)
  {
    var cs := ns[t].kids.ids;
    var ns1 := SpreadUpTo(ns, t, |cs|);
    SpreadOk(ns, t, q, n, sw);
    var r := Activated(ns1, cs[0], sw, q, n, alpha);
    ActivatedFacts(ns1, cs[0], sw, q, n, alpha);
    ActivatedFrame(ns1, cs[0], sw, q, n, alpha);
    ActivatedSelf(ns1, cs[0], sw, q, n, alpha);
    ParentOkKept(ns1, r, t, cs[0], 0, q, n, sw);
  }

  /** The step shared by the seeded start and a later approval: the weight
      of `t`, active since query `q - 1`, is split over its children and
      its first child becomes active at query `q`. */
  lemma DescendFrom(ns: seq<Node>, s: NodeId, t: NodeId, hist: seq<int>,
                    q: int, n: nat, sw: real, alpha: real)
    requires ActiveOk(ns, t, q - 1, n, sw) && 0 <= q < n && s < |ns|
    requires 0.0 <= sw <= 1.0 ==> 0.0 <= ns[t].weight <= 1.0
    requires |hist| == q && (hist == [] || hist[0] == 1)
    requires ns[t].history == if hist == [] then [] else Outcomes(hist[1..])
    ensures ns[t].kids.ids != []
    ensures TreeOk(Activated(SpreadUpTo(ns, t, |ns[t].kids.ids|), ns[t].kids.ids[0], sw, q, n, alpha),
                   s, ns[t].kids.ids[0], 0, hist + [1], q, n, sw, alpha)
  {
    SpreadParentOk(ns, t, q, n, sw, alpha);
    FirstChildHistory(ns[t].history, hist, q);
  }

  /** The first child's history is its parent's followed by the approval
      just recorded (the start node's children record no approval). */
  lemma FirstChildHistory(h: seq<Mark>, hist: seq<int>, q: int)
    requires |hist| == q && (hist == [] || hist[0] == 1)
    requires h == if hist == [] then [] else Outcomes(hist[1..])
    ensures (hist + [1])[0] == 1
    ensures ChildHistory(h, q - 1, 0) == Outcomes((hist + [1])[1..])
  {
    if hist != [] {
      OutcomesAppend(hist, 1);
    }
  }

  /** A success step keeps the invariant: after the seeded start or from any
      valid state that has not yet used all `n` queries, `t` has children,
      its weight is split over them and its first child becomes active at
      query `q`, at position 0. */
  lemma DescendOk(ns: seq<Node>, s: NodeId, t: NodeId, i: int, hist: seq<int>,
                  q: int, n: nat, sw: real, alpha: real)
    requires TreeOk(ns, s, t, i, hist, q - 1, n, sw, alpha) || SeedOk(ns, s, t, hist, q - 1, n, sw)
    requires 0 <= q < n
    ensures ns[t].kids.ids != []
    ensures TreeOk(Activated(SpreadUpTo(ns, t, |ns[t].kids.ids|), ns[t].kids.ids[0], sw, q, n, alpha),
                   s, ns[t].kids.ids[0], 0, hist + [1], q, n, sw, alpha)
  {
    if SeedOk(ns, s, t, hist, q - 1, n, sw) {
      DescendFrom(ns, s, t, hist, q, n, sw, alpha);
    } else {
      assert n != 0 && LastMove(q - 1, n) == q - 1;
      var p := ns[t].parent.value;
      assert ParentOk(ns, p, i, q - 1, n, sw) && ns[p].kids.ids[i] == t;
      if 0.0 <= sw <= 1.0 {
        ChildWeightInUnit(ns, p, i, q - 1, n, sw);
      }
      DescendFrom(ns, s, t, hist, q, n, sw, alpha);
    }
  }

  /** A failure step keeps the invariant: while fewer than `n` queries have
      moved the tree the active node always has a next sibling (the index
      stays inside the parent's children), and that sibling becomes active
      at query `q` with the weight it already had. */
  lemma AdvanceOk(ns: seq<Node>, s: NodeId, t: NodeId, i: int, hist: seq<int>,
                  q: int, n: nat, sw: real, alpha: real, result: int)
    requires TreeOk(ns, s, t, i, hist, q - 1, n, sw, alpha)
    requires 0 <= q < n && result != 1
    ensures ns[t].parent.Some? && i + 1 < |ns[ns[t].parent.value].kids.ids|
    ensures TreeOk(Activated(ns, ns[ns[t].parent.value].kids.ids[i + 1], sw, q, n, alpha),
                   s, ns[ns[t].parent.value].kids.ids[i + 1], i + 1, hist + [result], q, n, sw, alpha)
  {
    var p := ns[t].parent.value;
    SiblingParts(ns, p, i, q, n, sw, alpha);
    SiblingHistory(ns, p, t, i, hist, q, n, sw, result);
  }

  /** The next sibling `c` of child `i` of `p` at query `q`: once activated
      it is active with its local alpha, and `p` is its parent at position
      `i + 1`. */
  lemma SiblingParts(ns: seq<Node>, p: NodeId, i: int, q: int, n: nat, sw: real, alpha: real)
    requires ParentOk(ns, p, i, q - 1, n, sw) && 0 <= q < n
    ensures i + 1 < |ns[p].kids.ids| && ns[p].kids.ids[i + 1] < |ns|
    ensures var c := ns[p].kids.ids[i + 1];
            var r := Activated(ns, c, sw, q, n, alpha);
            && ParentOk(r, p, i + 1, q, n, sw)
            && r[p].kids == ns[p].kids
            && r[c].parent == Some(p)
            && r[c].history == ns[c].history
            && r[c].localAlpha == Some(Share(alpha, r[c].weight))
            && ActiveOk(r, c, q, n, sw)
  {
    var c := ns[p].kids.ids[i + 1];
    ActivatedFacts(ns, c, sw, q, n, alpha);
    ActivatedSelf(ns, c, sw, q, n, alpha);
    SiblingParent(ns, p, i, q, n, sw, alpha);
  }

  lemma SiblingParent(ns: seq<Node>, p: NodeId, i: int, q: int, n: nat, sw: real, alpha: real)
    requires ParentOk(ns, p, i, q - 1, n, sw) && 0 <= q < n
    ensures i + 1 < |ns[p].kids.ids| && ns[p].kids.ids[i + 1] < |ns|
    ensures var r := Activated(ns, ns[p].kids.ids[i + 1], sw, q, n, alpha);
            ParentOk(r, p, i + 1, q, n, sw) && r[p] == ns[p]
  {
    var c := ns[p].kids.ids[i + 1];
    var r := Activated(ns, c, sw, q, n, alpha);
    ActivatedFrame(ns, c, sw, q, n, alpha);
    ActivatedSelf(ns, c, sw, q, n, alpha);
    ParentOkKept(ns, r, p, c, i, q - 1, n, sw);
  }

  /** The next sibling's history is the active node's followed by the
      failure just recorded. */
  lemma SiblingHistory(ns: seq<Node>, p: NodeId, t: NodeId, i: int, hist: seq<int>, q: int, n: nat, sw: real, result: int)
    requires ParentOk(ns, p, i, q - 1, n, sw) && 0 <= q < n && result != 1
    requires ns[p].kids.ids[i] == t && |hist| == q && hist[0] == 1 && ns[t].history == Outcomes(hist[1..])
    ensures i + 1 < |ns[p].kids.ids|
    ensures ns[ns[p].kids.ids[i + 1]].history == Outcomes((hist + [result])[1..])
  {
    NextSiblingHistory(ns[p].history, q - 1 - i - 1, i);
    OutcomesAppend(hist, result);
  }

  /** After the last planned update the counter keeps growing while the
      tree stays where it is. */
  lemma ExhaustedOk(ns: seq<Node>, s: NodeId, t: NodeId, i: int, hist: seq<int>,
                    numQ: int, n: nat, sw: real, alpha: real)
    requires TreeOk(ns, s, t, i, hist, numQ, n, sw, alpha) && numQ + 1 >= n
    ensures TreeOk(ns, s, t, i, hist, numQ + 1, n, sw, alpha)
  {
    assert LastMove(numQ + 1, n) == LastMove(numQ, n);
  }

  /** The start node of weight 1 with its children built for query -1 is
      the seeded state. */
  lemma SeedStart(sw: real, n: nat, r: seq<Node>)
    ensures r == Planted(sw, n) ==> SeedOk(r, 0, 0, [], -1, n, sw)
  {
    WithChildrenActive([NewNode(1.0, sw, [], None)], 0, sw, -1, n);
  }

  /** The list `set_num_queries` plants: the start node of weight 1 at
      position 0, with its children built for query -1. */
  function Planted(sw: real, n: nat): seq<Node>
  {
    WithChildren([NewNode(1.0, sw, [], None)], 0, sw, -1, n)
  }

  /** The seeded approval from the planted list: the start node keeps
      weight 1, and its first child (node 1) becomes active with its parent
      the start node, weight `children_weights[0] * 1` and local alpha
      `alpha * weight`. */
  lemma SeededChild(sw: real, n: nat, alpha: real)
    requires n > 0
    ensures CanDescend(Planted(sw, n), 0) && FirstChild(Planted(sw, n), 0) == 1
    ensures var p := Planted(sw, n);
            var r := Activated(SpreadUpTo(p, 0, |p[0].kids.ids|), 1, sw, 0, n, alpha);
            && r[0].weight == 1.0 && r[0].parent == None
            && r[1].parent == Some(0)
            && r[1].weight == Share(ChildWeights(sw, -1, n)[0], 1.0)
            && r[1].localAlpha == Some(Share(alpha, r[1].weight))
  {
    var p := Planted(sw, n);
    SeedStart(sw, n, p);
    ApproveShape(p, 0, 0, 0, [], -1, n, sw, alpha);
    RangeAt(1, n);
    assert p[0].kids.ids == Range(1, n);
    assert p[0].kids.ids[0] == 1;
    SpreadFacts(p, 0);
    var s := SpreadUpTo(p, 0, |p[0].kids.ids|);
    assert 0 !in p[0].kids.ids;
    assert s[0] == p[0];
    assert s[1] == p[1].(weight := Share(ChildWeights(sw, -1, n)[0], 1.0));
  }

  /** Resetting the position to 0 after the seeded update changes nothing
      the invariant constrains: the position is already 0 after an
      approval, and unused when no query is planned. Every state with
      position 0 has all (no) earlier siblings observed. */
  lemma IndexReset(ns: seq<Node>, s: NodeId, t: NodeId, i: int, hist: seq<int>, numQ: int, n: nat, sw: real, alpha: real)
    ensures TreeOk(ns, s, t, i, hist, numQ, n, sw, alpha) && (n == 0 || i == 0) ==>
              TreeOk(ns, s, t, 0, hist, numQ, n, sw, alpha) && SiblingsDone(ns, t, 0)
  {
  }

  /** With no planned query the seeded update only counts, leaving the start
      node active without a local alpha. */
  lemma SeedExhaustedOk(ns: seq<Node>, s: NodeId, t: NodeId, i: int, hist: seq<int>, q0: int, sw: real, alpha: real)
    requires SeedOk(ns, s, t, hist, q0, 0, sw)
    ensures TreeOk(ns, s, t, i, hist, q0 + 1, 0, sw, alpha)
  {
    assert |ns[s].kids.ids| == ChildCount(-1, 0) == 0;
  }

  /** Recording losses or a threshold on the active node keeps the
      invariant: the tree reads neither. */
  lemma RecordOk(ns: seq<Node>, s: NodeId, t: NodeId, i: int, hist: seq<int>,
                 numQ: int, n: nat, sw: real, alpha: real, v: Node)
    ensures && TreeOk(ns, s, t, i, hist, numQ, n, sw, alpha)
            && v.(testLosses := ns[t].testLosses, testThres := ns[t].testThres) == ns[t] ==>
              TreeOk(ns[t := v], s, t, i, hist, numQ, n, sw, alpha)
  {
    if && TreeOk(ns, s, t, i, hist, numQ, n, sw, alpha)
       && v.(testLosses := ns[t].testLosses, testThres := ns[t].testThres) == ns[t] && n > 0 {
      var r := ns[t := v];
      var p := ns[t].parent.value;
      var q := LastMove(numQ, n);
      assert p != t;
      assert forall j :: 0 <= j < |ns| && j != t ==> r[j] == ns[j];
      ParentOkKept(ns, r, p, t, i, q, n, sw);
      assert Layout(r, t);
    }
  }

  /** Before a success step at query `q` the active node has children,
      which spreading its weight leaves in place. */
  lemma SuccessShape(ns: seq<Node>, s: NodeId, t: NodeId, i: int, hist: seq<int>,
                     q: int, n: nat, sw: real, alpha: real)
    requires TreeOk(ns, s, t, i, hist, q - 1, n, sw, alpha) || SeedOk(ns, s, t, hist, q - 1, n, sw)
    requires 0 <= q < n
    ensures Layout(ns, t) && ns[t].kids.ids != []
    ensures SpreadUpTo(ns, t, |ns[t].kids.ids|)[t] == ns[t]
  {
    SpreadFacts(ns, t);
  }

  /** The active node `t` has children, and spreading its weight over
      them leaves `t` itself unchanged. */
  ghost predicate CanDescend(ns: seq<Node>, t: NodeId)
  {
    && Layout(ns, t) && ns[t].kids.ids != []
    && SpreadUpTo(ns, t, |ns[t].kids.ids|)[t] == ns[t]
  }

  /** The first child of `t`. */
  function FirstChild(ns: seq<Node>, t: NodeId): (c: NodeId)
    requires CanDescend(ns, t)
    ensures t < c < |ns|
  {
    ns[t].kids.ids[0]
  }

  /** A move to the first child: the weight of the active node `t` is
      spread over its children, giving `r` once its first child `c` is
      activated at query `q`, at position `i2` = 0. */
  ghost predicate Descended(ns: seq<Node>, t: NodeId, r: seq<Node>, c: NodeId, i2: int,
                            sw: real, q: int, n: nat, alpha: real)
  {
    && CanDescend(ns, t) && q >= -1
    && c == FirstChild(ns, t) && i2 == 0
    && r == Activated(SpreadUpTo(ns, t, |ns[t].kids.ids|), FirstChild(ns, t), sw, q, n, alpha)
  }

  /** Before an approval after query `q0` the active node has children. */
  lemma ApproveShape(ns: seq<Node>, s: NodeId, t: NodeId, i: int, hist: seq<int>, q0: int, n: nat, sw: real, alpha: real)
    ensures (TreeOk(ns, s, t, i, hist, q0, n, sw, alpha) || SeedOk(ns, s, t, hist, q0, n, sw)) && 0 <= q0 + 1 < n ==>
              CanDescend(ns, t)
  {
    if (TreeOk(ns, s, t, i, hist, q0, n, sw, alpha) || SeedOk(ns, s, t, hist, q0, n, sw)) && 0 <= q0 + 1 < n {
      SuccessShape(ns, s, t, i, hist, q0 + 1, n, sw, alpha);
    }
  }

  /** An approval from the seeded start or from any valid state that has
      not used all `n` queries (the last update was at `q0`), stated on the
      list `r`, active node `c`, position `i2` and log `h` it produces.
      The step lemmas the class methods call (`ApproveShape`, `ApproveStep`,
      `RejectShape`, `RejectParent`, `RejectStep`) take their premise as
      the left side of an implication rather than as a precondition: a
      call then adds only the implication to the method's proof, instead
      of an obligation to re-establish `TreeOk` from the method's state,
      which keeps those methods within the solver's budget. The same facts
      with the premises as preconditions are `DescendInto` and
      `AdvanceInto`, which the implications are proved from. */
  lemma ApproveStep(ns: seq<Node>, s: NodeId, t: NodeId, i: int, hist: seq<int>, q0: int, n: nat, sw: real, alpha: real,
                    r: seq<Node>, c: NodeId, i2: int, h: seq<int>)
    ensures && (TreeOk(ns, s, t, i, hist, q0, n, sw, alpha) || SeedOk(ns, s, t, hist, q0, n, sw)) && 0 <= q0 + 1 < n
            && Descended(ns, t, r, c, i2, sw, q0 + 1, n, alpha) && h == hist + [1] ==>
              TreeOk(r, s, c, i2, h, q0 + 1, n, sw, alpha) && SiblingsDone(r, c, i2)
  {
    if && (TreeOk(ns, s, t, i, hist, q0, n, sw, alpha) || SeedOk(ns, s, t, hist, q0, n, sw)) && 0 <= q0 + 1 < n
       && Descended(ns, t, r, c, i2, sw, q0 + 1, n, alpha) && h == hist + [1]
    {
      DescendInto(ns, s, t, i, hist, q0, n, sw, alpha, r, c, i2, h);
    }
  }

  /** `ApproveStep` with its premise as a precondition. */
  lemma DescendInto(ns: seq<Node>, s: NodeId, t: NodeId, i: int, hist: seq<int>, q0: int, n: nat, sw: real, alpha: real,
                    r: seq<Node>, c: NodeId, i2: int, h: seq<int>)
    requires TreeOk(ns, s, t, i, hist, q0, n, sw, alpha) || SeedOk(ns, s, t, hist, q0, n, sw)
    requires 0 <= q0 + 1 < n
    requires Descended(ns, t, r, c, i2, sw, q0 + 1, n, alpha) && h == hist + [1]
    ensures TreeOk(r, s, c, i2, h, q0 + 1, n, sw, alpha) && SiblingsDone(r, c, i2)
  {
    DescendOk(ns, s, t, i, hist, q0 + 1, n, sw, alpha);
    assert c == ns[t].kids.ids[0] && i2 == 0;
  }

  /** The active node `t`, child `i` of its parent, has a next sibling. */
  ghost predicate HasNext(ns: seq<Node>, t: NodeId, i: int)
  {
    && t < |ns| && ns[t].parent.Some? && ns[t].parent.value < |ns|
    && 0 <= i && i + 1 < |ns[ns[t].parent.value].kids.ids|
    && ns[ns[t].parent.value].kids.ids[i + 1] < |ns|
  }

  /** The sibling after the active node `t`. */
  function NextSibling(ns: seq<Node>, t: NodeId, i: int): (c: NodeId)
    requires HasNext(ns, t, i)
    ensures c < |ns|
  {
    ns[ns[t].parent.value].kids.ids[i + 1]
  }

  /** A move to the next sibling: from the active node `t` at position
      `i`, the list `r` is `ns` with that sibling `c` activated at query `q`,
      and `c` sits at position `i2`. */
  ghost predicate Advanced(ns: seq<Node>, t: NodeId, i: int, r: seq<Node>, c: NodeId, i2: int,
                           sw: real, q: int, n: nat, alpha: real)
  {
    && HasNext(ns, t, i) && q >= -1
    && c == NextSibling(ns, t, i) && i2 == i + 1
    && r == Activated(ns, NextSibling(ns, t, i), sw, q, n, alpha)
  }

  /** Before a rejection after query `q0` the active node has a next
      sibling. */
  lemma RejectShape(ns: seq<Node>, s: NodeId, t: NodeId, i: int, hist: seq<int>, q0: int, n: nat, sw: real, alpha: real)
    ensures TreeOk(ns, s, t, i, hist, q0, n, sw, alpha) && 0 <= q0 + 1 < n ==> HasNext(ns, t, i)
  {
  }

  /** Before a rejection the active node is child `i` of its parent, whose
      children form a block. */
  lemma RejectParent(ns: seq<Node>, s: NodeId, t: NodeId, i: int, hist: seq<int>, q0: int, n: nat, sw: real, alpha: real)
    ensures TreeOk(ns, s, t, i, hist, q0, n, sw, alpha) && 0 <= q0 + 1 < n ==>
              && HasNext(ns, t, i) && Layout(ns, ns[t].parent.value) && ns[ns[t].parent.value].kids.ids[i] == t
  {
  }

  /** A rejection from a valid state that has not used all `n` queries,
      stated on what it produces (an implication, as `ApproveStep`). */
  lemma RejectStep(ns: seq<Node>, s: NodeId, t: NodeId, i: int, hist: seq<int>, q0: int, n: nat, sw: real, alpha: real,
                   result: int, r: seq<Node>, c: NodeId, i2: int, h: seq<int>)
    ensures && TreeOk(ns, s, t, i, hist, q0, n, sw, alpha) && 0 <= q0 + 1 < n && result != 1
            && Advanced(ns, t, i, r, c, i2, sw, q0 + 1, n, alpha) && h == hist + [result] ==>
              TreeOk(r, s, c, i2, h, q0 + 1, n, sw, alpha)
  {
    if && TreeOk(ns, s, t, i, hist, q0, n, sw, alpha) && 0 <= q0 + 1 < n && result != 1
       && Advanced(ns, t, i, r, c, i2, sw, q0 + 1, n, alpha) && h == hist + [result]
    {
      AdvanceInto(ns, s, t, i, hist, q0, n, sw, alpha, result, r, c, i2, h);
    }
  }

  /** `RejectStep` with its premise as a precondition. */
  lemma AdvanceInto(ns: seq<Node>, s: NodeId, t: NodeId, i: int, hist: seq<int>, q0: int, n: nat, sw: real, alpha: real,
                    result: int, r: seq<Node>, c: NodeId, i2: int, h: seq<int>)
    requires TreeOk(ns, s, t, i, hist, q0, n, sw, alpha) && 0 <= q0 + 1 < n && result != 1
    requires Advanced(ns, t, i, r, c, i2, sw, q0 + 1, n, alpha) && h == hist + [result]
    ensures TreeOk(r, s, c, i2, h, q0 + 1, n, sw, alpha)
  {
    AdvanceOk(ns, s, t, i, hist, q0 + 1, n, sw, alpha, result);
    assert c == ns[ns[t].parent.value].kids.ids[i + 1];
  }

  /** A rejection keeps the earlier siblings observed and adds the node
      just tested to them. */
  lemma RejectObserved(ns: seq<Node>, t: NodeId, i: int, r: seq<Node>, c: NodeId, i2: int,
                       sw: real, q: int, n: nat, alpha: real)
    ensures && HasNext(ns, t, i) && Layout(ns, ns[t].parent.value) && ns[ns[t].parent.value].kids.ids[i] == t
            && SiblingsDone(ns, t, i) && ns[t].testLosses.Some? && ns[t].testThres.Some?
            && Advanced(ns, t, i, r, c, i2, sw, q, n, alpha) ==>
              SiblingsDone(r, c, i2)
  {
    if && HasNext(ns, t, i) && Layout(ns, ns[t].parent.value) && ns[ns[t].parent.value].kids.ids[i] == t
       && SiblingsDone(ns, t, i) && ns[t].testLosses.Some? && ns[t].testThres.Some?
       && Advanced(ns, t, i, r, c, i2, sw, q, n, alpha) {
      var p := ns[t].parent.value;
      var cs := ns[p].kids.ids;
      ActivatedFrame(ns, c, sw, q, n, alpha);
      assert forall k :: 0 <= k <= i ==> cs[k] != c;
      assert r[c].parent == Some(p) && r[p] == ns[p];
    }
  }

  /** Neither move touches the node that was active before it: a move to
      the first child changes only that child and later nodes. */
  lemma DescendKeeps(ns: seq<Node>, t: NodeId, r: seq<Node>, c: NodeId, i2: int,
                     sw: real, q: int, n: nat, alpha: real)
    ensures Descended(ns, t, r, c, i2, sw, q, n, alpha) ==> t < |r| && r[t] == ns[t]
  {
    if Descended(ns, t, r, c, i2, sw, q, n, alpha) {
      ActivatedFrame(SpreadUpTo(ns, t, |ns[t].kids.ids|), c, sw, q, n, alpha);
    }
  }

  /** A move to the next sibling changes only that sibling and the nodes
      appended after it. */
  lemma AdvanceKeeps(ns: seq<Node>, t: NodeId, i: int, r: seq<Node>, c: NodeId, i2: int,
                     sw: real, q: int, n: nat, alpha: real)
    ensures && HasNext(ns, t, i) && Layout(ns, ns[t].parent.value) && ns[ns[t].parent.value].kids.ids[i] == t
            && Advanced(ns, t, i, r, c, i2, sw, q, n, alpha) ==>
              t < |r| && r[t] == ns[t]
  {
    if && HasNext(ns, t, i) && Layout(ns, ns[t].parent.value) && ns[ns[t].parent.value].kids.ids[i] == t
       && Advanced(ns, t, i, r, c, i2, sw, q, n, alpha) {
      ActivatedFrame(ns, c, sw, q, n, alpha);
    }
  }

  /** The earlier siblings `parent.children[:i]` of `t` are nodes of `ns`. */
  ghost predicate SiblingsIn(ns: seq<Node>, t: NodeId, i: int)
  {
    && t < |ns|
    && (ns[t].parent.Some? ==>
          && ns[t].parent.value < |ns|
          && 0 <= i <= |ns[ns[t].parent.value].kids.ids|
          && AllIds(ns, ns[ns[t].parent.value].kids.ids[..i]))
  }

  /** In a valid state the active node lacks a parent, and lacks a local
      alpha, exactly when no query is planned; the outcome log has at most
      one entry per planned query and starts with the seeded approval. */
  lemma ActiveFacts(ns: seq<Node>, s: NodeId, t: NodeId, i: int, hist: seq<int>,
                    numQ: int, n: nat, sw: real, alpha: real)
    ensures TreeOk(ns, s, t, i, hist, numQ, n, sw, alpha) ==>
              && t < |ns|
              && (ns[t].parent.None? <==> n == 0)
              && (ns[t].localAlpha.None? <==> n == 0)
              && |hist| <= n && (n > 0 ==> hist[0] == 1)
  {
  }

  /** `t` is child `i` of its parent, if it has one, and its earlier
      siblings are nodes of `ns`. */
  ghost predicate SiblingBlock(ns: seq<Node>, t: NodeId, i: int)
  {
    && SiblingsIn(ns, t, i)
    && (ns[t].parent.Some? ==>
          Layout(ns, ns[t].parent.value) && i < |ns[ns[t].parent.value].kids.ids|
          && ns[ns[t].parent.value].kids.ids[i] == t)
  }

  /** In a valid state the earlier siblings of the active node exist. */
  lemma ValidSiblings(ns: seq<Node>, s: NodeId, t: NodeId, i: int, hist: seq<int>,
                      numQ: int, n: nat, sw: real, alpha: real)
    ensures TreeOk(ns, s, t, i, hist, numQ, n, sw, alpha) ==> SiblingBlock(ns, t, i)
  {
    if TreeOk(ns, s, t, i, hist, numQ, n, sw, alpha) && n > 0 {
      var cs := ns[ns[t].parent.value].kids.ids;
      assert forall k :: 0 <= k < i ==> cs[..i][k] == cs[k];
    }
  }

  /** `_get_prior_losses` and `_get_prior_thres` of the FFS variant: the
      loss differences and thresholds recorded on the earlier siblings
      `parent.children[:i]` of the active node `t`, in order. The start
      node has no parent (`AttributeError` in the source), and a sibling
      whose test never ran has no record. */
  function PriorTests(ns: seq<Node>, t: NodeId, i: int): (r: Result<(seq<seq<real>>, seq<real>)>)
    requires SiblingsIn(ns, t, i)
    ensures r == Err(NoParentNode) <==> ns[t].parent.None?
    ensures r.Err? && ns[t].parent.Some? ==> r == Err(TestNotRun)
    ensures r.Ok? <==> ns[t].parent.Some? && Observed(ns, ns[ns[t].parent.value].kids.ids, i)
    ensures r.Ok? ==> |r.value.0| == i && |r.value.1| == i
    ensures r.Ok? ==> forall k :: 0 <= k < i ==>
              var c := ns[ns[ns[t].parent.value].kids.ids[k]];
              Some(r.value.0[k]) == c.testLosses && Some(r.value.1[k]) == c.testThres
  {
    if ns[t].parent.None? then Err(NoParentNode)
    else
      var cs := ns[ns[t].parent.value].kids.ids;
      assert forall k :: 0 <= k < i ==> cs[..i][k] == cs[k];
      match (Recorded(ns, cs[..i], LossesOf), Recorded(ns, cs[..i], ThresOf))
      case (Some(losses), Some(thres)) => Ok((losses, thres))
      case _ => Err(TestNotRun)
  }

  /** Recording a test on the active node `t` changes neither what its
      earlier siblings recorded nor whether they all have run. */
  lemma RecordKeepsPrior(ns: seq<Node>, t: NodeId, i: int, v: Node)
    requires SiblingBlock(ns, t, i)
    requires v.parent == ns[t].parent && v.kids == ns[t].kids
    ensures SiblingBlock(ns[t := v], t, i)
    ensures PriorTests(ns[t := v], t, i) == PriorTests(ns, t, i)
  {
    var r := ns[t := v];
    if ns[t].parent.Some? {
      var p := ns[t].parent.value;
      var cs := ns[p].kids.ids;
      assert p != t && r[p] == ns[p];
      assert forall j :: 0 <= j < |ns| ==> r[j].parent == ns[j].parent;
      assert Layout(r, p);
      assert forall k :: 0 <= k < i ==> cs[..i][k] == cs[k] && cs[k] != t;
      assert AllIds(r, cs[..i]);
      RecordedSame(ns, r, cs[..i], LossesOf);
      RecordedSame(ns, r, cs[..i], ThresOf);
    }
  }

  /** Recording a test on the active node keeps its earlier siblings
      observed. */
  lemma RecordKeepsDone(ns: seq<Node>, t: NodeId, i: int, v: Node)
    requires SiblingsDone(ns, t, i)
    requires v.parent == ns[t].parent && v.kids == ns[t].kids
    requires ns[t].testLosses.Some? ==> v.testLosses.Some?
    requires ns[t].testThres.Some? ==> v.testThres.Some?
    ensures SiblingsDone(ns[t := v], t, i)
  {
  }

  /** The correlation estimate handed to the solver: `np.corrcoef` of the
      earlier loss differences followed by the current ones, or `[[1]]` when
      there is no earlier test. */
  function EstCorr(num: Numerics, prior: seq<seq<real>>, current: seq<real>): Matrix
  {
    if |prior| > 0 then num.corrcoef(prior + [current]) else [[1.0]]
  }

  /** With no earlier sibling (the first child of an approved node) the
      correlation-aware test of `GraphicalFFSMTP` is the test of
      `GraphicalBonfMTP`: the threshold is the plain quantile of the local
      alpha, whatever the losses, and when the quantile function is
      symmetric, as the normal one is (`ppf(1 - l) == -ppf(l)`), the
      t-statistic lies below it exactly when the upper confidence bound
      lies below 0. */
  lemma FirstTestAgrees(num: Numerics, current: seq<real>, lossMean: real, stdErr: real, level: real)
    requires num.ppf(1.0 - level) == -num.ppf(level)
    ensures SolveThres(num, EstCorr(num, [], current), [], level) == num.ppf(level)
    ensures FfsOutcome(lossMean, stdErr, SolveThres(num, EstCorr(num, [], current), [], level))
              == BonfOutcome(num, lossMean, stdErr, level)
  {
    assert stdErr * num.ppf(1.0 - level) == -(num.ppf(level) * stdErr);
  }
}
