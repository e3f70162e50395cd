# Online multiple-testing mechanisms of adaptive SRGP, in Dafny

This project models the multiple-testing procedures (MTPs) that decide whether
to approve each proposed modification of a deployed prediction model. The
decisions arrive as a stream. Each MTP spends a global type-I error budget
`alpha` across that stream. The models cover four mechanisms and two history
records:

- `BonferroniThresholdMTP` (`Bonferroni`). Every test runs at the level
  `alpha / 2^N`, where `N` is the number of planned queries.
- `GraphicalBonfMTP` and its subclass `GraphicalFFSMTP` (`GraphicalTree` for
  the tree as a value, `GraphicalMtp` for the class).
  - These run a sequentially rejective graphical procedure (SRGP) on a tree of
    nodes, each node carrying a weight.
  - An approval spreads the active node's weight over its children. The split
    is geometric in `success_weight`, and the last child absorbs the rest.
    The first child then becomes active.
  - A rejection moves to the next sibling.
  - The active node tests at `alpha * weight`. The FFS subclass does this with
    a correlation-aware threshold solved against the earlier siblings' recorded
    losses and thresholds.
- `GraphicalParallelMTP` (`ParallelTree`, `ParallelMtp`).
  - A prespecified chain of nodes is tested next to an adaptive binary tree.
  - An outcome passes the active node's weight along its success or failure
    edge.
  - Both thresholds are conditioned on the lineage of chain tests.
- The two `TestHistory` records (`DeveloperHistory`, `ModelerHistory`). They
  list the proposed and approved models and the times of approval.

The model rests on three modelling choices:

- **Node arena.** The Python nodes are mutable objects that point at each
  other. Here every mechanism keeps the nodes it builds in a list (`nodes`).
  A reference is a position in that list, and a field update replaces the
  node at that position (`SrgpNode`).
- **Statistics as parameters.** The statistical routines are a `Numerics`
  parameter: the normal quantile, the correlation estimate and the external
  multivariate quantile solver. Loss means and standard errors are inputs.
- **Exact arithmetic.** Weights and levels are exact reals.

The main results:

- The weight split conserves weight: the children's weights sum exactly to
  the parent's.
- Every child weight lies in [0,1], and so every local alpha lies in
  [0, alpha].
- The prespecified chain spends at most `parallel_ratio`.
- Each update keeps an invariant that ties the active node, its position, its
  history and the outcome log together.
- The thresholds are computed from exactly the records the source reads.

## Model

| member | source | states |
|---|---|---|
| Bonferroni.Pow2 | code/mtp_mechanisms.py:53 | the exact correction factor `2^n` is at least 1 |
| Bonferroni.Pow2Add | code/mtp_mechanisms.py:53 | `2^(a+b) = 2^a * 2^b`, so each extra planned query halves every history's share |
| Bonferroni.Pow2At64 | code/mtp_mechanisms.py:53 | `2^63` and `2^64` are the first powers outside signed 64-bit range |
| Bonferroni.Pow2Below63 | code/mtp_mechanisms.py:53 | every power below the 63rd fits numpy's `int64` |
| Bonferroni.WrapInt64 | code/mtp_mechanisms.py:53 | the wrapped value lies in the `int64` range, is congruent to the input modulo `2^64`, and equals the input when it already fits |
| Bonferroni.NumpyPow2 | code/mtp_mechanisms.py:53 | `np.power(2, n)` on `int64` agrees with the true `2^n` for `n < 63` |
| Bonferroni.NumpyPow2Wraps | code/mtp_mechanisms.py:53-75 | as written, `n = 63` gives a factor of `-2^63` and a negative test level, and `n = 64` gives a factor of 0 |
| Bonferroni.LevelSplitsAlpha | code/mtp_mechanisms.py:71-75 | `Level`, the test level `alpha / correction_factor` with the exact factor `2^n`, lies in [0, alpha], halves with each further query, and the `2^n` histories together spend exactly `alpha` |
| Bonferroni.BonferroniMTP.constructor | code/mtp_mechanisms.py:47-49 | keeps `alpha`; no correction factor before planning |
| Bonferroni.BonferroniMTP.SetNumQueries | code/mtp_mechanisms.py:51-54 | records `n` and sets the correction factor to `2^n` |
| Bonferroni.BonferroniMTP.GetTestCompare | code/mtp_mechanisms.py:56-78 | fails exactly when no query count was planned; otherwise approves (1) iff the upper confidence bound at level `alpha / 2^N` is negative |
| Common.IncreasingSpread | code/model_developers.py:38-39 | strictly increasing approval times grow by at least one per entry |
| SrgpNode.NewNode | code/mtp_mechanisms.py:85-95 | a new node's two edges split its outgoing weight completely (`success_edge + failure_edge = 1`); it has no successors, children or test records |
| SrgpNode.Earn | code/mtp_mechanisms.py:103-105 | the weight grows by exactly the amount earned, the local alpha is cleared, and nothing else changes |
| SrgpNode.ObserveLosses | code/mtp_mechanisms.py:97-98 | only the recorded losses change, to the given ones |
| SrgpNode.SetTestThres | code/mtp_mechanisms.py:100-101 | only the recorded threshold changes, to the given one |
| SrgpNode.Recorded | code/mtp_mechanisms.py:204-208 | the list comprehension over nodes succeeds iff every listed node holds the value, and then lists those values in order |
| SrgpNode.RecordedSame | code/mtp_mechanisms.py:204-208 | the comprehension depends only on the values of the listed nodes |
| AlphaWeights.PowInUnit | code/mtp_mechanisms.py:139 | a power of a number in [0,1] stays in [0,1] |
| AlphaWeights.PowAntitone | code/mtp_mechanisms.py:139 | powers of `1 - success_weight` shrink as the exponent grows |
| AlphaWeights.SumAppend | code/mtp_mechanisms.py:142 | `np.sum` of a list extended by `x` grows by `x` |
| AlphaWeights.SumScale | code/mtp_mechanisms.py:176-177 | scaling every fraction by the parent's weight scales their sum by it |
| AlphaWeights.SumConstant | code/mtp_mechanisms.py:374-378 | `k` equal chain weights sum to `k` times that weight |
| AlphaWeights.GeometricTermAt | code/mtp_mechanisms.py:138-140 | raw child weight `k` of the range starting at `lo` is `sw * (1-sw)^(lo+k)` |
| AlphaWeights.GeometricPrefix | code/mtp_mechanisms.py:138-142 | dropping the last raw weight leaves the weights of the shorter range, which is what `children_weights[:-1]` sums |
| AlphaWeights.GeometricSum | code/mtp_mechanisms.py:138-142 | telescoping: the raw weights for exponents `lo .. hi-1` sum to `(1-sw)^lo - (1-sw)^hi` |
| AlphaWeights.ChildWeights | code/mtp_mechanisms.py:138-142 | one fraction per child `_create_children` builds |
| AlphaWeights.ChildWeightAt | code/mtp_mechanisms.py:138-140 | every fraction but the last is `sw * (1-sw)^(q+1+k)`; the exponents start at `q + 1`, not at 0 |
| AlphaWeights.ChildWeightsSumToOne | code/mtp_mechanisms.py:141-142 | whenever a node has children, their fractions sum to exactly 1 |
| AlphaWeights.TermInUnit | code/mtp_mechanisms.py:139 | one geometric fraction lies in [0,1] |
| AlphaWeights.ProductInUnit | code/mtp_mechanisms.py:177 | a fraction of a weight in [0,1] is in [0, weight] |
| AlphaWeights.LastChildWeightInUnit | code/mtp_mechanisms.py:141-142 | the absorbing last fraction `1 - sum(others)` lies in [0,1] |
| AlphaWeights.ChildWeightsInUnit | code/mtp_mechanisms.py:138-142 | for `success_weight` in [0,1], every fraction lies in [0,1] |
| AlphaWeights.PrespecWeights | code/mtp_mechanisms.py:364-389 | the chain has `n + 1` weights |
| AlphaWeights.MiddleShareBound | code/mtp_mechanisms.py:374-378 | the `n - 1` middle chain nodes together get at most `(1 - first_pres_weight) * parallel_ratio` |
| AlphaWeights.PrespecTotal | code/mtp_mechanisms.py:364-389 | with `PrespecWeight` giving each chain node's weight, the chain's total weight is `fpw*pr + (n-1)*(1-fpw)/n*pr`, at most `parallel_ratio`, and with the adaptive root's `1 - parallel_ratio` at most 1 |
| Thresholds.ApprovalMonotone | code/mtp_mechanisms.py:192-195 | for `BonfOutcome` (the upper-confidence-bound test) and `FfsOutcome`, a smaller mean loss difference never turns an approval into a rejection; a larger FFS threshold approves at least as often, so the minimum over sampled configurations is the conservative choice |
| Thresholds.FfsOutcome | code/mtp_mechanisms.py:286-287 | approves iff the t-statistic lies below the threshold; at a zero standard error, iff the mean is negative |
| Thresholds.CountTrueAppend | code/mtp_mechanisms.py:252-257 | extending a mask by one bit adds that bit to the count of set bits |
| Thresholds.Select | code/mtp_mechanisms.py:257 | boolean-mask indexing keeps as many entries as there are set bits, all of them taken from the input |
| Thresholds.KeepMask | code/mtp_mechanisms.py:252-255 | a prior hypothesis stays null iff it was not drawn; the current test always stays |
| Thresholds.SubMatrix | code/mtp_mechanisms.py:256 | the masked correlation is square, of the size of the kept set |
| Thresholds.SubProblem | code/mtp_mechanisms.py:252-257 | the sub-problem has one more correlation row than prior thresholds, and keeps only original thresholds |
| Thresholds.Candidates | code/mtp_mechanisms.py:243-263 | one candidate per draw after the all-null threshold, which comes first |
| Thresholds.SeqMin | code/mtp_mechanisms.py:265 | `np.min` is an element of the list and no larger than any element |
| Thresholds.MinThresApprox | code/mtp_mechanisms.py:229-265 | the returned threshold is never above the all-null one; it equals it with at most one prior hypothesis or no draws; otherwise it is the least of all candidates |
| GraphicalTree.Zeros | code/mtp_mechanisms.py:131 | `[0] * i` has length `i` |
| GraphicalTree.ChildNodes | code/mtp_mechanisms.py:128-133 | one child per planned position |
| GraphicalTree.WithChildren | code/mtp_mechanisms.py:127-142 | `_create_children` appends exactly `n - q - 1` nodes |
| GraphicalTree.Activated | code/mtp_mechanisms.py:184-185 | activation appends the node's children and nothing else |
| GraphicalTree.SpreadUpTo | code/mtp_mechanisms.py:176-177 | spreading weights builds no node |
| GraphicalTree.WithChildrenActive | code/mtp_mechanisms.py:127-142 | after `_create_children(c, q)`, `c` has its `ChildCount(q, n)` = `len(range(n - q - 1))` children, each of weight 0 and pointing back to `c`, with history `c.history + [1 unless start] + [0]*k`, and the geometric fractions |
| GraphicalTree.ActivatedFacts | code/mtp_mechanisms.py:184-185 | an activated node is active at query `q` in that sense |
| GraphicalTree.SpreadFacts | code/mtp_mechanisms.py:176-177 | child `k` receives exactly `children_weights[k] * weight`, and no other node changes |
| GraphicalTree.WeightsOf | code/mtp_mechanisms.py:176-177 | one weight per listed node |
| GraphicalTree.SplitConserves | code/mtp_mechanisms.py:174-179 | once a node's weight is spread, its children's weights sum exactly to its own weight |
| GraphicalTree.NextSiblingHistory | code/mtp_mechanisms.py:131 | the next sibling's history is the current one followed by one failure (0) |
| GraphicalTree.FirstTestAgrees | code/mtp_mechanisms.py:276-287 | `EstCorr` and `SolveThres` with no earlier sibling: the correlation is `[[1]]` and the threshold the plain quantile of the local alpha, whatever the losses; with a symmetric quantile function the FFS outcome then equals the Bonferroni upper-confidence-bound outcome at the same level |
| GraphicalTree.OutcomesAppend | code/mtp_mechanisms.py:173 | logging one more outcome adds its mark to the history |
| GraphicalTree.ChildWeightInUnit | code/mtp_mechanisms.py:176-177 | a spread child's weight lies in [0,1] when `success_weight` does |
| GraphicalTree.LocalAlphaWithinBudget | code/mtp_mechanisms.py:185 | in every valid state with planned queries, the active node has a local alpha, and it lies in [0, alpha] |
| GraphicalTree.DescendOk | code/mtp_mechanisms.py:174-185 | an approval from a valid or seeded state yields a valid state at the first child, with the outcome 1 logged |
| GraphicalTree.AdvanceOk | code/mtp_mechanisms.py:180-185 | a rejection from a valid state before the last query finds a next sibling, and yields a valid state there with the outcome logged |
| GraphicalTree.ExhaustedOk | code/mtp_mechanisms.py:166-171 | past the last planned query the counter still grows and the state stays valid |
| GraphicalTree.SeedStart | code/mtp_mechanisms.py:150-156 | the start node of weight 1 with its children built for query -1 is the seeded state |
| GraphicalTree.SeedExhaustedOk | code/mtp_mechanisms.py:160-171 | with no planned query the seeded update only counts, and the start node stays active with no local alpha |
| GraphicalTree.RecordOk | code/mtp_mechanisms.py:272-284 | recording losses or a threshold on the active node keeps the tree valid |
| GraphicalTree.ApproveStep | code/mtp_mechanisms.py:173-185 | the approval step, stated on the state it produces: valid, and every earlier sibling observed (none) |
| GraphicalTree.RejectStep | code/mtp_mechanisms.py:180-185 | the rejection step, stated on the state it produces: valid |
| GraphicalTree.RejectObserved | code/mtp_mechanisms.py:180-208 | after a rejection, the earlier siblings of the new active node, the node just tested among them, all have losses and a threshold recorded |
| GraphicalTree.ActiveFacts | code/mtp_mechanisms.py:164-185 | in a valid state, the active node has a parent iff queries are planned, and a local alpha iff queries are planned; the log has at most `n` entries and starts with the seeded 1 |
| GraphicalTree.ValidSiblings | code/mtp_mechanisms.py:204-208 | in a valid state, the earlier siblings `parent.children[:parent_child_idx]` exist |
| GraphicalTree.PriorTests | code/mtp_mechanisms.py:204-208 | the prior losses and thresholds fail on the start node (no parent) and on an unrecorded sibling; otherwise they are the `i` earlier siblings' records, in order |
| GraphicalTree.RecordKeepsPrior | code/mtp_mechanisms.py:272-284 | recording a test on the active node does not change what its earlier siblings recorded |
| GraphicalTree.RecordKeepsDone | code/mtp_mechanisms.py:272-284 | recording a test on the active node keeps its earlier siblings observed |
| GraphicalMtp.GraphicalMTP.constructor | code/mtp_mechanisms.py:111-125 | keeps `alpha` and `success_weight`; no tree yet |
| GraphicalMtp.GraphicalMTP.CreateChildren | code/mtp_mechanisms.py:127-142 | the loop builds the node list of `_create_children` |
| GraphicalMtp.GraphicalMTP.SpreadWeights | code/mtp_mechanisms.py:176-177 | the loop gives each child its fraction of the active node's weight |
| GraphicalTree.SeededChild | code/mtp_mechanisms.py:150-160 | the seeded approval from the planted start node: the start node keeps weight 1 and no parent, and its first child becomes active with parent the start node, weight `children_weights[0] * 1` and local alpha `alpha * weight` |
| GraphicalMtp.GraphicalMTP.SetNumQueries | code/mtp_mechanisms.py:144-162 | a fresh valid tree with no query made, the seeded 1 logged when queries are planned, and position 0; the start node has weight 1 and no parent; with no planned query the planted list stays as it is with the start node active, otherwise it is the descent from the planted list, whose active node is the start node's first child with weight `children_weights[0] * 1` and its local alpha |
| GraphicalMtp.GraphicalMTP.Plant | code/mtp_mechanisms.py:145-157 | the node list is exactly the planted one (`Planted`: the start node of weight 1 at position 0 with its `n` children for query -1), and it is the seeded state |
| GraphicalMtp.GraphicalMTP.Descend | code/mtp_mechanisms.py:174-185 | moves to the first child after spreading the weight, and activates it |
| GraphicalMtp.GraphicalMTP.Advance | code/mtp_mechanisms.py:180-185 | moves to the next sibling and activates it |
| GraphicalMtp.GraphicalMTP.DoTreeUpdate | code/mtp_mechanisms.py:164-185 | keeps the tree valid; counts every call; past the last planned query changes nothing else; otherwise logs the outcome and descends on 1 or advances on any other outcome; leaves the node just tested as it was |
| GraphicalMtp.GraphicalMTP.Count | code/mtp_mechanisms.py:166-171 | past the last planned query, only the counter moves |
| GraphicalMtp.GraphicalMTP.Approve | code/mtp_mechanisms.py:173-179 | an approval keeps the tree valid, logs 1 and descends |
| GraphicalMtp.GraphicalMTP.Reject | code/mtp_mechanisms.py:180-185 | a rejection keeps the tree valid, logs the outcome and advances |
| GraphicalMtp.GraphicalMTP.CompareBonf | code/mtp_mechanisms.py:187-198 | fails with no change iff no query was planned (no local alpha); otherwise tests at the active node's local alpha, which lies in [0, alpha], counts the query, and updates the tree with the outcome: unchanged past the last planned query, otherwise the outcome logged and a descent to the first child on 1 or an advance to the next sibling on anything else |
| GraphicalMtp.GraphicalMTP.TestFfs | code/mtp_mechanisms.py:267-288 | records the losses on the active node and changes no other node; fails iff the prior records fail, with only the losses recorded; otherwise also records the threshold solved against the earlier siblings' records at the local alpha, and compares the t-statistic to it |
| GraphicalMtp.GraphicalMTP.Record | code/mtp_mechanisms.py:272-284 | replacing the active node's test records keeps the tree valid and the earlier siblings' records unchanged |
| GraphicalMtp.GraphicalMTP.CompareFfs | code/mtp_mechanisms.py:267-293 | fails iff the earlier siblings' records are missing (always on the start node, never after an unbroken FFS run), with only the losses recorded and the query not counted; otherwise the tested node records its losses and the threshold `SolveThres(EstCorr(prior losses, losses), prior thresholds, local alpha)`, the outcome compares the t-statistic to it, and the tree is updated from that recorded state: unchanged past the last query, descended on 1, advanced otherwise |
| ParallelTree.Nones | code/mtp_mechanisms.py:382 | `[None] * i` |
| ParallelTree.SeedWeightBound | code/mtp_mechanisms.py:325-329 | `SeedWeight`, the `child_weight` of `_create_children`, lies in [0, 1 - parallel_ratio] and is 0 from query `alpha_alloc_max_depth` on |
| ParallelTree.ChainLineage | code/mtp_mechanisms.py:345-353 | `Lineage`, the recursive `_get_prior_losses` / `_get_prior_thres`: the prior records of chain node `k` exist iff nodes `0 .. k` all hold them, and then list them root first |
| ParallelTree.LineageSame | code/mtp_mechanisms.py:345-353 | the prior records read only the node and its ancestors |
| ParallelTree.LineageThresSame | code/mtp_mechanisms.py:413-425 | the lineage threshold reads only the ancestors' parents and records |
| ParallelTree.LineageThresPrefix | code/mtp_mechanisms.py:413-425 | two node lists that agree up to a node give it the same lineage threshold |
| ParallelTree.ChainReady | code/mtp_mechanisms.py:413-450 | `LineageThres`, the threshold solved from a node's lineage: once the chain nodes before `k` are tested, the chain test at `k` has its lineage, and after `k` itself the adaptive test has its own |
| ParallelTree.ChainBudget | code/mtp_mechanisms.py:364-389 | the chain's weights sum to at most `parallel_ratio`, and with the adaptive root's share to at most 1 |
| ParallelTree.WithSeeds | code/mtp_mechanisms.py:324-343 | `_create_children` appends the two seeded children and links them; nothing else changes |
| ParallelTree.AdaptStep | code/mtp_mechanisms.py:464-477 | the successor earns `weight * edge`, gets its local alpha `alpha * weight` and its children; no other node changes |
| ParallelTree.ShareWithin | code/mtp_mechanisms.py:466-473 | passing a fraction of a weight along an edge passes no more than the weight |
| ParallelTree.AdaptStepOk | code/mtp_mechanisms.py:464-477 | an adaptive step keeps the adaptive invariant; the new active node's weight is its seed plus the edge share, and its history extends by the outcome |
| ParallelTree.QueryDoneFrom | code/mtp_mechanisms.py:482-491 | recording both tests and then the whole update gives the query's node list, leaving every node before the tested chain node as it was |
| ParallelTree.ChainStepOk | code/mtp_mechanisms.py:478-480 | once the adaptive step is done, activating the next chain node with its local alpha completes a valid state and changes no other node |
| ParallelTree.AdaptFrame | code/mtp_mechanisms.py:478-480 | changing a chain node keeps the adaptive tree's invariant: the chain update does not touch the active node or its children |
| ParallelTree.UpdateOk | code/mtp_mechanisms.py:458-480 | `Updated`, the adaptive step followed by `ChainStep`, keeps the invariant, with the chain advanced (or exhausted after its last node) and both logs extended; the new active node's weight is its seed plus the edge share of the old one's, and only the chain node after the tested one and the appended children change |
| ParallelTree.ChainStart | code/mtp_mechanisms.py:364-370 | the chain's root with its local alpha starts the building loop |
| ParallelTree.ChainGrow | code/mtp_mechanisms.py:373-389 | one loop round appends node `i` with its prespecified weight and links node `i - 1` to it |
| ParallelTree.SetupOk | code/mtp_mechanisms.py:355-399 | the built chain plus the adaptive root and its children form a valid state with no query made |
| ParallelTree.RecordParOk | code/mtp_mechanisms.py:411-440 | recording a test on a chain node or the active node keeps the state valid |
| ParallelMtp.GraphicalParallelMTP.constructor | code/mtp_mechanisms.py:306-322 | keeps the five parameters; no graph yet |
| ParallelMtp.GraphicalParallelMTP.CreateChildren | code/mtp_mechanisms.py:324-343 | appends and links the two children |
| ParallelMtp.GraphicalParallelMTP.BuildChain | code/mtp_mechanisms.py:363-389 | the loop builds the complete chain, with its root current |
| ParallelMtp.GraphicalParallelMTP.SetNumQueries | code/mtp_mechanisms.py:355-399 | a valid state with no query: chain at its root, the adaptive root of weight `1 - parallel_ratio` active |
| ParallelMtp.GraphicalParallelMTP.DoTreeUpdate | code/mtp_mechanisms.py:458-480 | logs both outcomes, moves the adaptive node along its edge, where it earns the old node's weight times that edge on top of its seed and gets its local alpha, advances the chain; fails after everything else has changed iff the chain had no next node; the chain prefix and the tested node stay |
| ParallelMtp.GraphicalParallelMTP.MoveAdaptive | code/mtp_mechanisms.py:464-477 | the adaptive half of the update |
| ParallelMtp.GraphicalParallelMTP.AdvanceChain | code/mtp_mechanisms.py:478-480 | the chain moves to its successor, which gets its local alpha; reports whether there was one |
| ParallelMtp.GraphicalParallelMTP.TestChain | code/mtp_mechanisms.py:401-430 | fails with no change iff the chain is used up; otherwise records the chain node's losses and its lineage threshold at its local alpha, and compares to it; no other node changes |
| ParallelMtp.GraphicalParallelMTP.TestAdaptive | code/mtp_mechanisms.py:432-456 | records only the active node's losses and compares to the threshold solved against the chain lineage at its local alpha |
| ParallelMtp.GraphicalParallelMTP.TestBoth | code/mtp_mechanisms.py:482-488 | the chain test, then the adaptive test against the lineage that now includes the chain node just tested; the new list is the old one with only those two nodes' records changed (`Tested`) |
| ParallelMtp.GraphicalParallelMTP.GetTestCompare | code/mtp_mechanisms.py:482-491 | fails iff the chain was used up; past its end nothing changes; otherwise chain node `k` records its losses and lineage threshold, both logs grow by their outcomes, and the adaptive node moves along the adaptive outcome to the child whose weight is its seed plus the old node's weight times that edge, with local alpha `alpha * weight`; the new list is `Updated` applied to the list with the two tests recorded (`QueryDone`), so the nodes before `k`, whose records later lineage thresholds read, stay as they were |
| DeveloperHistory.TestHistory.constructor | code/model_developers.py:20-27 | the current model counts as approved and proposed at time 0 |
| DeveloperHistory.TestHistory.Update | code/model_developers.py:29-44 | the clock advances by one; every list grows by one entry, and the approvals grow iff the outcome is truthy, at the new time |
| DeveloperHistory.TestHistory.TotApproves | code/model_developers.py:46-48 | the count of approvals, between 1 and the current time plus 1 |
| ModelerHistory.TestHistory.constructor | code/modelers.py:12-15 | the initial model is approved at time 0, and the clock starts at 1 |
| ModelerHistory.TestHistory.Update | code/modelers.py:17-22 | an outcome of exactly 1 records the model at the current time; the clock advances either way; the approval times stay increasing and in the past |

## Left out

- Loss computation is not modelled. That covers `get_losses`, `np.mean`, `np.var` and `np.sqrt`, so the mean and standard error are inputs.
- `norm.ppf`, `np.corrcoef` and the external R quantile solver are parameters (`Numerics`). The scratch file and the subprocess call are not modelled.
- scipy's `norm.ppf` is -inf at 0 and +inf at 1, so in the code a node with local alpha 0 (a later sibling when `success_weight = 1`, say) never approves in the upper-bound test: `upper_ci` is +inf, or nan when the standard error is 0. The free `ppf` parameter does not capture these infinities, and the model can approve there.
- The solver's failures are not modelled, nor are zero variance or a correlation that is not positive semi-definite. The solver is taken to return a number.
- The random subsets drawn by `np.random.choice` are an input (`draws`), constrained to what the call can produce.
- Logging and `print` output are omitted.
- `BinaryThresholdMTP` is not modelled; it is outside the modelled core.
- Floating point is modelled as exact reals. `1 - np.sum(...)` and the weight products are exact here.
- `base_threshold`, `scratch_file` and `last_ffs_root` are omitted. They are stored but never read by the modelled logic.
- `alpha_alloc_max_depth == 0` in `GraphicalBonfMTP.__init__` is not modelled. The tree code never reads the field.
- `subfam_root` is dropped. `Node.__init__` (code/mtp_mechanisms.py:85) has no such parameter, so the parallel class fails with a `TypeError` in `set_num_queries` as written. The model treats the keyword as an unread attribute, which is what the rest of the parallel code evidently assumes.
- ParallelTree.SeedWeight: `np.power(2, alpha_alloc_max_depth)` is modelled as the exact `2^depth`. Its `int64` wrap at depth 63 is the same finding as for the Bonferroni factor.
- `_get_min_t_stat_thres_approx` is called with the default `num_tries = 0` (code/mtp_mechanisms.py:281). `GraphicalMTP.TestFfs` therefore uses `SolveThres` directly. The draws loop is modelled on its own in `MinThresApprox`.
- Calls made before `set_num_queries` are not modelled for the graphical classes. Python raises `AttributeError` there; the methods require `Valid()`, which only `SetNumQueries` establishes. `BonferroniMTP.GetTestCompare` does model this case, as `NotPlanned`.
- Thresholds.Select: states the length and membership of the selection, not the exact order of the kept entries.
- After the last planned query `GraphicalBonfMTP` and `GraphicalFFSMTP` raise nothing: they keep testing at the last active node's local alpha and only count (`GraphicalMTP.Count`). `GraphicalParallelMTP` raises `AttributeError` once its chain is used up, modelled as `ChainExhausted`.
- The code does not check the ranges of `alpha`, `success_weight` or `parallel_ratio`, and neither does the model. The bounds in [0,1] appear only as premises of the weight lemmas.

## Findings

| source | as written | input that shows it | evidently intended | confidence | as-written member | corrected member |
|---|---|---|---|---|---|---|
| code/mtp_mechanisms.py:53 | `np.power(2, num_adapt_queries)` is computed in numpy `int64` and wraps around | `num_adapt_queries = 63` gives a factor of `-2^63`, so `alpha / factor` is a negative level; `num_adapt_queries = 64` gives a factor of 0; in float64, at 63 the upper bound's quantile gets `1 + 5e-21`, which rounds to exactly `1.0`, and returns +inf, and only the negative level passed to `ppf` for `t_thres` lies outside its range, so the decision is 0 with either factor and the wrap changes only the level and the printed threshold | a correction factor of exactly `2^N`, so that the `2^N` histories share `alpha` | not executed | Bonferroni.NumpyPow2Wraps | Bonferroni.LevelSplitsAlpha |
