/** The inputs the correlation-aware variants hand to the threshold
    solver, and the conservative minimum over sampled null
    configurations (`_solve_t_statistic_thres`,
    `_get_min_t_stat_thres_approx`). The numerical routines themselves are
    parameters. */
module Thresholds {

  type Matrix = seq<seq<real>>

  /** The numerical collaborators: the standard normal quantile
      (`norm.ppf`), the sample correlation of a list of vectors
      (`np.corrcoef`) and the external multivariate-normal threshold solver. */
  datatype Numerics = Numerics(
    ppf: real -> real,
    corrcoef: seq<seq<real>> -> Matrix,
    externalSolve: (Matrix, seq<real>, real) -> real)

  /** `m` is a `d` by `d` matrix. */
  ghost predicate IsSquare(m: Matrix, d: nat)
  {
    |m| == d && forall i :: 0 <= i < d ==> |m[i]| == d
  }

  /** `_solve_t_statistic_thres`: with no earlier test the threshold is the
      plain normal quantile at the level; otherwise the external solver
      decides, given the correlation and the earlier thresholds. */
  function SolveThres(num: Numerics, cov: Matrix, priorThres: seq<real>, level: real): (t: real)
    ensures |priorThres| == 0 ==> t == num.ppf(level)
    ensures |priorThres| > 0 ==> t == num.externalSolve(cov, priorThres, level)
  {
    if |priorThres| == 0 then num.ppf(level) else num.externalSolve(cov, priorThres, level)
  }

  /** The outcome `int(upper_ci < 0)` of the Bonferroni-style test at
      `level`, with the upper confidence bound
      `upper_ci = lossMean + stdErr * ppf(1 - level)`: 1 approves. */
  function BonfOutcome(num: Numerics, lossMean: real, stdErr: real, level: real): (r: int)
    ensures r == 0 || r == 1
    ensures r == 1 <==> lossMean + stdErr * num.ppf(1.0 - level) < 0.0
  {
    if lossMean + stdErr * num.ppf(1.0 - level) < 0.0 then 1 else 0
  }

  /** The outcome `int(lossMean / stdErr < thres)` of the FFS test: 1
      approves. The quotient is written as the product
      `lossMean < thres * stdErr`, which agrees with numpy's division for
      every standard error `stdErr >= 0`, 0 included (a negative mean over
      0 is minus infinity, a zero mean over 0 is not a number). */
  function FfsOutcome(lossMean: real, stdErr: real, thres: real): (r: int)
    ensures r == 0 || r == 1
    ensures stdErr > 0.0 ==> (r == 1 <==> lossMean / stdErr < thres)
    ensures stdErr == 0.0 ==> (r == 1 <==> lossMean < 0.0)
  {
    if lossMean < thres * stdErr then 1 else 0
  }

  /** A smaller mean loss difference never turns an approval into a
      rejection, in either test; and a larger FFS threshold approves at
      least as often, so the minimum over sampled configurations is the
      conservative choice. */
  lemma ApprovalMonotone(num: Numerics, lossMean: real, smaller: real, stdErr: real, level: real,
                         thres: real, larger: real)
    requires smaller <= lossMean && 0.0 <= stdErr && thres <= larger
    ensures BonfOutcome(num, smaller, stdErr, level) >= BonfOutcome(num, lossMean, stdErr, level)
    ensures FfsOutcome(smaller, stdErr, thres) >= FfsOutcome(lossMean, stdErr, thres)
    ensures FfsOutcome(lossMean, stdErr, larger) >= FfsOutcome(lossMean, stdErr, thres)
  {
    assert thres * stdErr <= larger * stdErr by {
      assert (larger - thres) * stdErr >= 0.0;
    }
  }

  function CountTrue(m: seq<bool>): nat
  {
    if |m| == 0 then 0 else (if m[0] then 1 else 0) + CountTrue(m[1..])
  }

  lemma {:induction false} CountTrueAppend(m: seq<bool>, b: bool)
    ensures CountTrue(m + [b]) == CountTrue(m) + (if b then 1 else 0)
  {
    if |m| > 0 {
      assert (m + [b])[1..] == m[1..] + [b];
      CountTrueAppend(m[1..], b);
    }
  }

  /** numpy boolean-mask indexing `s[m]`: the entries whose mask bit is set,
      in their original order. */
  function Select<T>(s: seq<T>, m: seq<bool>): (r: seq<T>)
    requires |s| == |m|
    ensures |r| == CountTrue(m)
    ensures forall x :: x in r ==> x in s
  {
    if |s| == 0 then [] else (if m[0] then [s[0]] else []) + Select(s[1..], m[1..])
  }

  /** `subset_true` for one random draw: a prior hypothesis `k < n` stays
      null unless it was drawn; the current test, index `n`, always stays. */
  function KeepMask(n: nat, drawn: seq<int>): (m: seq<bool>)
    ensures |m| == n + 1 && m[n]
    ensures forall k :: 0 <= k < n ==> (m[k] <==> k !in drawn)
  {
    seq(n + 1, k => k == n || k !in drawn)
  }

  /** `est_cov[subset_true, :][:, subset_true]`. */
  function SubMatrix(cov: Matrix, m: seq<bool>): (r: Matrix)
    requires IsSquare(cov, |m|)
    ensures IsSquare(r, CountTrue(m))
  {
    var rows := seq(|cov|, i requires 0 <= i < |cov| => Select(cov[i], m));
    assert forall x :: x in rows ==> |x| == CountTrue(m);
    Select(rows, m)
  }

  /** The problem handed to the solver for one sampled configuration: the
      restricted correlation matrix and `prior_thres[subset_true[:-1]]`.
      The current test is always kept, so the matrix has exactly one more
      row than there are prior thresholds, as the solver expects. */
  function SubProblem(cov: Matrix, priorThres: seq<real>, drawn: seq<int>): (r: (Matrix, seq<real>))
    requires IsSquare(cov, |priorThres| + 1)
    ensures IsSquare(r.0, |r.1| + 1)
    ensures forall t :: t in r.1 ==> t in priorThres
  {
    var n := |priorThres|;
    var m := KeepMask(n, drawn);
    assert m == m[..n] + [true];
    CountTrueAppend(m[..n], true);
    (SubMatrix(cov, m), Select(priorThres, m[..n]))
  }

  /** The draws `np.random.choice` can produce for `num_hypos = n`: a subset
      size between 1 and `n // 2`, and indices in `range(n)`. */
  ghost predicate ValidDraws(draws: seq<seq<int>>, n: nat)
  {
    forall i :: 0 <= i < |draws| ==>
      1 <= |draws[i]| <= n / 2 && forall j :: 0 <= j < |draws[i]| ==> 0 <= draws[i][j] < n
  }

  /** The thresholds `_get_min_t_stat_thres_approx` collects: the all-null
      threshold first, then one per sampled configuration, in draw order. */
  function Candidates(num: Numerics, cov: Matrix, priorThres: seq<real>, level: real,
                      draws: seq<seq<int>>): (r: seq<real>)
    requires IsSquare(cov, |priorThres| + 1)
    ensures |r| == |draws| + 1
    ensures r[0] == SolveThres(num, cov, priorThres, level)
  {
    [SolveThres(num, cov, priorThres, level)] +
    seq(|draws|, i requires 0 <= i < |draws| =>
      var sub := SubProblem(cov, priorThres, draws[i]);
      SolveThres(num, sub.0, sub.1, level))
  }

  /** `np.min`. */
  function SeqMin(s: seq<real>): (r: real)
    requires |s| > 0
    ensures r in s
    ensures forall x :: x in s ==> r <= x
  {
    if |s| == 1 then s[0]
    else
      var rest := SeqMin(s[1..]);
      assert forall x :: x in s ==> x == s[0] || x in s[1..];
      if s[0] <= rest then s[0] else rest
  }

  /** `_get_min_t_stat_thres_approx` with the random draws as an input:
      the all-null threshold, unless there are at least two prior hypotheses
      and at least one draw, in which case the minimum of the all-null
      threshold and the sampled configurations' thresholds. The result is
      never larger than the all-null threshold, so the test it feeds is at
      least as stringent. */
  method MinThresApprox(num: Numerics, cov: Matrix, priorThres: seq<real>, level: real,
                        draws: seq<seq<int>>) returns (t: real)
    requires ValidDraws(draws, |priorThres|)
    requires |priorThres| <= 1 || |draws| == 0 || IsSquare(cov, |priorThres| + 1)
    ensures t <= SolveThres(num, cov, priorThres, level)
    ensures |priorThres| <= 1 || |draws| == 0 ==> t == SolveThres(num, cov, priorThres, level)
    ensures |priorThres| > 1 && |draws| > 0 ==>
              t in Candidates(num, cov, priorThres, level, draws) &&
              forall c :: c in Candidates(num, cov, priorThres, level, draws) ==> t <= c
  {
    var thres := SolveThres(num, cov, priorThres, level);
    var numHypos := |priorThres|;
    if numHypos <= 1 || |draws| == 0 {
      return thres;
    }
    ghost var all := Candidates(num, cov, priorThres, level, draws);
    var allThres := [thres];
    var i := 0;
    while i < |draws|
      invariant 0 <= i <= |draws|
      invariant allThres == all[..i + 1]
    {
      var sub := SubProblem(cov, priorThres, draws[i]);
      var thresOneFalse := SolveThres(num, sub.0, sub.1, level);
      allThres := allThres + [thresOneFalse];
      i := i + 1;
    }
    assert allThres == all;
    t := SeqMin(allThres);
  }
}
