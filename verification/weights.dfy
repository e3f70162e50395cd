/** Exact-arithmetic model of the alpha-weight formulas of the
    sequentially rejective graphical procedure: the geometric split of a
    node's weight over its children and the prespecified chain of the
    parallel variant. */
module AlphaWeights {

  /** `x` raised to the natural power `n` (numpy's `np.power` on reals). */
  function Pow(x: real, n: nat): real
  {
    if n == 0 then 1.0 else x * Pow(x, n - 1)
  }

  /** A power of a number in [0,1] stays in [0,1]. */
  lemma {:induction false} PowInUnit(x: real, n: nat)
    requires 0.0 <= x <= 1.0
    ensures 0.0 <= Pow(x, n) <= 1.0
  {
    if n > 0 {
      PowInUnit(x, n - 1);
      assert 0.0 <= x * Pow(x, n - 1) <= Pow(x, n - 1);
    }
  }

  /** Powers of a number in [0,1] shrink as the exponent grows. */
  lemma {:induction false} PowAntitone(x: real, m: nat, n: nat)
    requires 0.0 <= x <= 1.0 && m <= n
    ensures Pow(x, n) <= Pow(x, m)
  {
    if m < n {
      PowAntitone(x, m, n - 1);
      PowInUnit(x, n - 1);
      assert x * Pow(x, n - 1) <= Pow(x, n - 1);
    }
  }

  /** The part `fraction * w` of a budget `w`: the local alpha of a node
      with weight `w`, or a child's share of its parent's weight. */
  function Share(fraction: real, w: real): real
  {
    fraction * w
  }

  /** Sum of a list of weights (`np.sum`). */
  function Sum(s: seq<real>): real
  {
    if |s| == 0 then 0.0 else s[0] + Sum(s[1..])
  }

  lemma {:induction false} SumAppend(s: seq<real>, x: real)
    ensures Sum(s + [x]) == Sum(s) + x
  {
    if |s| == 0 {
      assert s + [x] == [x];
    } else {
      assert (s + [x])[1..] == s[1..] + [x];
      SumAppend(s[1..], x);
    }
  }

  /** Every entry of `s` multiplied by `c`. */
  function Scale(c: real, s: seq<real>): (r: seq<real>)
    ensures |r| == |s|
  {
    seq(|s|, i requires 0 <= i < |s| => s[i] * c)
  }

  /** Scaling every entry scales the sum: the basis of weight conservation. */
  lemma {:induction false} SumScale(c: real, s: seq<real>)
    ensures Sum(Scale(c, s)) == c * Sum(s)
  {
    if |s| > 0 {
      forall i | 0 <= i < |s| - 1
        ensures Scale(c, s)[1..][i] == Scale(c, s[1..])[i]
      {
        assert Scale(c, s)[1..][i] == Scale(c, s)[i + 1] == s[i + 1] * c;
      }
      assert Scale(c, s)[1..] == Scale(c, s[1..]);
      SumScale(c, s[1..]);
    }
  }

  /** `(hi - lo)` copies of `c`. */
  lemma {:induction false} SumConstant(c: real, k: nat)
    ensures Sum(seq(k, i => c)) == k as real * c
  {
    if k > 0 {
      assert seq(k, i => c)[1..] == seq(k - 1, i => c);
      SumConstant(c, k - 1);
    }
  }

  /** The raw geometric weights `sw * (1 - sw)^i` for `i` in `range(lo, hi)`. */
  function GeometricTerms(sw: real, lo: nat, hi: int): (r: seq<real>)
    ensures |r| == if hi > lo then hi - lo else 0
    decreases hi - lo
  {
    if hi > lo then [sw * Pow(1.0 - sw, lo)] + GeometricTerms(sw, lo + 1, hi) else []
  }

  /** Entry `k` of the raw weights has exponent `lo + k`. */
  lemma {:induction false} GeometricTermAt(sw: real, lo: nat, hi: int, k: nat)
    requires lo + k < hi
    ensures GeometricTerms(sw, lo, hi)[k] == sw * Pow(1.0 - sw, lo + k)
    decreases k
  {
    if k > 0 {
      GeometricTermAt(sw, lo + 1, hi, k - 1);
    }
  }

  /** Dropping the last raw weight leaves the weights of the shorter range. */
  lemma {:induction false} GeometricPrefix(sw: real, lo: nat, hi: int)
    requires lo < hi
    ensures GeometricTerms(sw, lo, hi)[..hi - lo - 1] == GeometricTerms(sw, lo, hi - 1)
    decreases hi - lo
  {
    if lo + 1 < hi {
      GeometricPrefix(sw, lo + 1, hi);
    }
  }

  /** Telescoping: the weights for exponents `lo .. hi-1` add up to
      `(1-sw)^lo - (1-sw)^hi`. */
  lemma {:induction false} GeometricSum(sw: real, lo: nat, hi: nat)
    requires lo <= hi
    ensures Sum(GeometricTerms(sw, lo, hi)) == Pow(1.0 - sw, lo) - Pow(1.0 - sw, hi)
    decreases hi - lo
  {
    if lo < hi {
      var t := GeometricTerms(sw, lo, hi);
      assert t[1..] == GeometricTerms(sw, lo + 1, hi);
      GeometricSum(sw, lo + 1, hi);
      assert Pow(1.0 - sw, lo + 1) == (1.0 - sw) * Pow(1.0 - sw, lo);
    }
  }

  /** Number of children `_create_children(node, q)` builds:
      `len(range(num_adapt_queries - q - 1))`. */
  function ChildCount(q: int, n: int): nat
  {
    if n - q - 1 > 0 then n - q - 1 else 0
  }

  /** The `children_weights` list of `_create_children(node, q)` with
      `n = num_adapt_queries`: `sw * (1-sw)^i` for `i` in `range(q+1, n)`,
      then the last entry replaced by one minus the sum of the others. */
  function ChildWeights(sw: real, q: int, n: int): (r: seq<real>)
    requires q >= -1
    ensures |r| == ChildCount(q, n)
  {
    var raw := GeometricTerms(sw, q + 1, n);
    if |raw| == 0 then []
    else raw[..|raw| - 1] + [1.0 - Sum(raw[..|raw| - 1])]
  }

  /** Every child weight but the absorbing last one is the geometric weight
      `sw * (1-sw)^(q+1+k)`: the exponents start at `q + 1`, not at 0. */
  lemma ChildWeightAt(sw: real, q: int, n: int, k: nat)
    requires q >= -1 && k + 1 < ChildCount(q, n)
    ensures ChildWeights(sw, q, n)[k] == sw * Pow(1.0 - sw, q + 1 + k)
  {
    var raw := GeometricTerms(sw, q + 1, n);
    var pre := raw[..|raw| - 1];
    assert ChildWeights(sw, q, n) == pre + [1.0 - Sum(pre)];
    assert pre[k] == raw[k];
    GeometricTermAt(sw, q + 1, n, k);
  }

  /** Whenever a node gets children, their weights sum to exactly one: the
      last child absorbs whatever the geometric prefix leaves over. */
  lemma {:induction false} ChildWeightsSumToOne(sw: real, q: int, n: int)
    requires q >= -1 && ChildCount(q, n) > 0
    ensures Sum(ChildWeights(sw, q, n)) == 1.0
  {
    var raw := GeometricTerms(sw, q + 1, n);
    SumAppend(raw[..|raw| - 1], 1.0 - Sum(raw[..|raw| - 1]));
  }

  /** One geometric weight `sw * (1-sw)^e` lies in [0,1]. */
  lemma TermInUnit(sw: real, e: nat)
    requires 0.0 <= sw <= 1.0
    ensures 0.0 <= sw * Pow(1.0 - sw, e) <= 1.0
  {
    PowInUnit(1.0 - sw, e);
    ProductInUnit(sw, Pow(1.0 - sw, e));
  }

  lemma MulNonneg(a: real, b: real)
    requires 0.0 <= a && 0.0 <= b
    ensures 0.0 <= a * b
  {
  }

  lemma ProductInUnit(a: real, b: real)
    requires 0.0 <= a <= 1.0 && 0.0 <= b <= 1.0
    ensures 0.0 <= a * b <= b <= 1.0
  {
    MulNonneg(a, b);
    MulNonneg(1.0 - a, b);
    assert (1.0 - a) * b == b - a * b;
  }

  /** The absorbing last child weight is `1 - ((1-sw)^(q+1) - (1-sw)^(n-1))`. */
  lemma LastChildWeightInUnit(sw: real, q: int, n: int)
    requires q >= -1 && 0.0 <= sw <= 1.0 && ChildCount(q, n) > 0
    ensures 0.0 <= ChildWeights(sw, q, n)[ChildCount(q, n) - 1] <= 1.0
  {
    GeometricPrefix(sw, q + 1, n);
    GeometricSum(sw, q + 1, n - 1);
    PowInUnit(1.0 - sw, n - 1);
    PowInUnit(1.0 - sw, q + 1);
    PowAntitone(1.0 - sw, q + 1, n - 1);
  }

  /** For a success weight in [0,1], every child weight lies in [0,1],
      including the absorbing last one, `1 - ((1-sw)^(q+1) - (1-sw)^(n-1))`. */
  lemma {:induction false} ChildWeightsInUnit(sw: real, q: int, n: int)
    requires q >= -1 && 0.0 <= sw <= 1.0
    ensures forall k :: 0 <= k < |ChildWeights(sw, q, n)| ==> 0.0 <= ChildWeights(sw, q, n)[k] <= 1.0
  {
    var cw := ChildWeights(sw, q, n);
    if |cw| > 0 {
      forall k | 0 <= k < |cw| - 1
        ensures 0.0 <= cw[k] <= 1.0
      {
        ChildWeightAt(sw, q, n, k);
        TermInUnit(sw, q + 1 + k);
      }
      LastChildWeightInUnit(sw, q, n);
    }
  }

  /** Weight of node `i` (0-based) of the prespecified chain of the parallel
      variant with `n` planned queries: `fpw * pr` for the root,
      `(1 - fpw) / n * pr` for the middle nodes and 0 for node `n`. */
  function PrespecWeight(fpw: real, pr: real, n: nat, i: nat): real
  {
    if i == 0 then fpw * pr
    else if i < n then (1.0 - fpw) / n as real * pr
    else 0.0
  }

  /** The weights of the whole chain, root first (`n + 1` nodes). */
  function PrespecWeights(fpw: real, pr: real, n: nat): (r: seq<real>)
    ensures |r| == n + 1
  {
    seq(n + 1, i requires 0 <= i <= n => PrespecWeight(fpw, pr, n, i))
  }

  /** The `n - 1` middle nodes together get at most `(1 - fpw) * pr`. */
  lemma MiddleShareBound(fpw: real, pr: real, n: nat)
    requires 0.0 <= fpw <= 1.0 && 0.0 <= pr && n > 0
    ensures (n - 1) as real * ((1.0 - fpw) / n as real * pr) <= (1.0 - fpw) * pr
  {
    var c := (1.0 - fpw) * pr;
    assert 0.0 <= c;
    assert (1.0 - fpw) / n as real * pr == c / n as real;
    assert (n - 1) as real * (c / n as real) == c - c / n as real;
    assert 0.0 <= c / n as real;
  }

  /** The chain spends exactly `pr * (fpw + (1 - fpw) * (n - 1) / n)` in total,
      which is at most the parallel ratio `pr` for `fpw` in [0,1]; together
      with the adaptive root `1 - pr` the two chains start with at most the
      whole budget. */
  lemma {:induction false} PrespecTotal(fpw: real, pr: real, n: nat)
    requires 0.0 <= fpw <= 1.0 && 0.0 <= pr
    ensures n == 0 ==> Sum(PrespecWeights(fpw, pr, n)) == fpw * pr
    ensures n > 0 ==> Sum(PrespecWeights(fpw, pr, n))
                      == fpw * pr + (n - 1) as real * ((1.0 - fpw) / n as real * pr)
    ensures Sum(PrespecWeights(fpw, pr, n)) <= pr
    ensures Sum(PrespecWeights(fpw, pr, n)) + (1.0 - pr) <= 1.0
  {
    var w := PrespecWeights(fpw, pr, n);
    if n == 0 {
      assert w == [fpw * pr];
      assert Sum(w) == fpw * pr + Sum(w[1..]);
    } else {
      var mid := (1.0 - fpw) / n as real * pr;
      assert w == [fpw * pr] + seq(n - 1, i => mid) + [0.0];
      assert w[1..] == seq(n - 1, i => mid) + [0.0];
      SumAppend(seq(n - 1, i => mid), 0.0);
      SumConstant(mid, n - 1);
      MiddleShareBound(fpw, pr, n);
    }
  }
}
