/** `TestHistory` of the model developers: the record of every proposed
    modification, whether it was approved, and when. */
module DeveloperHistory {
  import opened Common

  class TestHistory<Model, Detail> {
    var approvalTimes: seq<int>
    var approvedMdls: seq<Model>
    var proposedMdls: seq<Model>
    var currTime: int
    /** `None` where the caller gave no batch number. */
    var batchNumbers: seq<Option<int>>
    /** The outcome of every test, the initial model's `True` being 1. */
    var didApprove: seq<int>
    var resDetails: seq<Detail>

    /** One entry per time step in the per-step lists; the approval times
        start at 0, increase, and are exactly the time steps whose outcome
        is nonzero; each approved model is the model proposed at its
        approval time. */
    ghost predicate Valid()
      reads this
    {
      && currTime >= 0
      && |didApprove| == currTime + 1 && |proposedMdls| == currTime + 1
      && |resDetails| == currTime + 1 && |batchNumbers| == currTime + 1
      && |approvalTimes| == |approvedMdls| && |approvalTimes| >= 1
      && approvalTimes[0] == 0 && Increasing(approvalTimes)
      && (forall j :: 0 <= j < |approvalTimes| ==>
            0 <= approvalTimes[j] <= currTime && approvedMdls[j] == proposedMdls[approvalTimes[j]])
      && (forall t :: 0 <= t <= currTime ==> (t in approvalTimes <==> didApprove[t] != 0))
    }

    /** `__init__`: the current model counts as approved and proposed at
        time 0. */
    constructor (currMdl: Model, resDetail: Detail)
      ensures Valid()
      ensures approvalTimes == [0] && approvedMdls == [currMdl] && proposedMdls == [currMdl]
      ensures currTime == 0 && batchNumbers == [Some(0)] && didApprove == [1] && resDetails == [resDetail]
    {
      approvalTimes := [0];
      approvedMdls := [currMdl];
      proposedMdls := [currMdl];
      currTime := 0;
      batchNumbers := [Some(0)];
      didApprove := [1];
      resDetails := [resDetail];
    }

    /** `update`: the clock advances by one; every per-step list gets one
        entry; a nonzero outcome also records the new time and the
        proposed model as an approval. */
    method Update(testRes: int, resDetail: Detail, proposedMdl: Model, batchNumber: Option<int>)
      requires Valid()
      modifies this
      ensures Valid()
      ensures currTime == old(currTime) + 1
      ensures didApprove == old(didApprove) + [testRes]
      ensures proposedMdls == old(proposedMdls) + [proposedMdl]
      ensures resDetails == old(resDetails) + [resDetail]
      ensures batchNumbers == old(batchNumbers) + [batchNumber]
      ensures approvalTimes == if testRes != 0 then old(approvalTimes) + [currTime] else old(approvalTimes)
      ensures approvedMdls == if testRes != 0 then old(approvedMdls) + [proposedMdl] else old(approvedMdls)
    {
      currTime := currTime + 1;
      didApprove := didApprove + [testRes];
      if testRes != 0 {
        approvalTimes := approvalTimes + [currTime];
        approvedMdls := approvedMdls + [proposedMdl];
      }
      proposedMdls := proposedMdls + [proposedMdl];
      resDetails := resDetails + [resDetail];
      batchNumbers := batchNumbers + [batchNumber];
    }

    /** `tot_approves`: the number of approvals, the initial model
        included; never more than the number of time steps. */
    function TotApproves(): (r: nat)
      reads this
      requires Valid()
      ensures r == |approvalTimes|
      ensures 1 <= r <= currTime + 1
    {
      IncreasingSpread(approvalTimes, |approvalTimes| - 1);
      |approvalTimes|
    }
  }
}
