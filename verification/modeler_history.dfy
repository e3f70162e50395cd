/** `TestHistory` of the modelers: the approved models and the times they
    were approved at. */
module ModelerHistory {
  import opened Common

  class TestHistory<Model> {
    var approvalTimes: seq<int>
    var approvedMdls: seq<Model>
    var currTime: int

    /** One time per approved model; the times start at 0, increase, and
        all lie before the current time. */
    ghost predicate Valid()
      reads this
    {
      && currTime >= 1
      && |approvalTimes| == |approvedMdls| && |approvalTimes| >= 1
      && approvalTimes[0] == 0 && Increasing(approvalTimes)
      && forall j :: 0 <= j < |approvalTimes| ==> approvalTimes[j] < currTime
    }

    /** `__init__`: the initial model is approved at time 0 and the clock
        starts at 1. */
    constructor (initModel: Model)
      ensures Valid()
      ensures approvalTimes == [0] && approvedMdls == [initModel] && currTime == 1
    {
      approvalTimes := [0];
      approvedMdls := [initModel];
      currTime := 1;
    }

    /** `update`: an outcome equal to 1 records the current time and model
        as an approval; any other outcome, a continuous score included,
        records nothing. The clock advances by one either way. */
    method Update(testRes: real, currMdl: Model)
      requires Valid()
      modifies this
      ensures Valid()
      ensures currTime == old(currTime) + 1
      ensures approvalTimes == if testRes == 1.0 then old(approvalTimes) + [old(currTime)] else old(approvalTimes)
      ensures approvedMdls == if testRes == 1.0 then old(approvedMdls) + [currMdl] else old(approvedMdls)
    {
      if testRes == 1.0 {
        approvalTimes := approvalTimes + [currTime];
        approvedMdls := approvedMdls + [currMdl];
      }
      currTime := currTime + 1;
    }
  }
}
