/** Small shared vocabulary: optional values (Python's None) and the
    run-time failures the mechanisms can raise. */
module Common {

  /** A Python attribute or slot that may hold `None`. */
  datatype Option<+T> = None | Some(value: T)

  /** The ways a call into a mechanism fails in the source. */
  datatype Fault =
    | LocalAlphaUnset      // the active node never had `local_alpha` assigned
    | NoParentNode         // the active node is the start node, so it has no siblings
    | ChainExhausted       // the prespecified chain has no next node
    | TestNotRun           // an earlier node never had its losses or threshold recorded
    | NotPlanned           // `set_num_queries` was never called

  datatype Result<+T> = Ok(value: T) | Err(fault: Fault)

  /** A list of times, each later than the one before. */
  ghost predicate Increasing(s: seq<int>)
  {
    forall i, j :: 0 <= i < j < |s| ==> s[i] < s[j]
  }

  /** Distinct increasing times are at least one apart: entry `k` is at
      least `k` after the first. */
  lemma {:induction false} IncreasingSpread(s: seq<int>, k: nat)
    requires Increasing(s) && k < |s|
    ensures s[k] >= s[0] + k
  {
    if k > 0 {
      IncreasingSpread(s, k - 1);
    }
  }
}
