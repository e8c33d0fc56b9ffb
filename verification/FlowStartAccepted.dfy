/**
What STARTED means: in every execution of requests, crashes, deploys, callbacks and run ends, the engine has
accepted every flow whose row says it has.
*/
module FlowStartAccepted {
  import opened Wrappers
  import opened CaseRows
  import opened FlowStart
  import opened FlowStartSafety

  // The rows past STARTING, and the requests about to move one there, are of workflows the engine took.
  ghost predicate RowsAccepted(s: Sys) {
    forall w :: w in s.db.flows && s.db.flows[w].status != Starting ==> w in s.runs
  }

  predicate RequestAccepted(s: Sys, r: Request) {
    r.pc == ConfirmStart ==> r.req.workflowId in s.runs
  }

  ghost predicate Accepted(s: Sys) {
    RowsAccepted(s) && forall id :: id in s.requests ==> RequestAccepted(s, s.requests[id])
  }

  lemma RunsStay(s: Sys, step: Step, w: WorkflowId)
    requires w in s.runs
    ensures w in Apply(s, step).runs
  {
  }

  lemma CallKeepsRowsAccepted(s: Sys, id: RequestId)
    requires Inv(s) && Accepted(s) && id in s.requests
    ensures RowsAccepted(Apply(s, Call(id)))
  {
    var r, s' := s.requests[id], Apply(s, Call(id));
    CallRunsOp(s, id);
    forall w | w in s'.db.flows && s'.db.flows[w].status != Starting
      ensures w in s'.runs
    {
      if w in s.db.flows && s.db.flows[w].status != Starting {
        RunsStay(s, Call(id), w);
      } else {
        assert r.pc == ConfirmStart && w == r.req.workflowId;
        assert RequestAccepted(s, r);
      }
    }
  }

  lemma CallKeepsRequestAccepted(s: Sys, id: RequestId)
    requires Inv(s) && Accepted(s) && id in s.requests
    ensures id in ApplyCall(s, id).requests && RequestAccepted(ApplyCall(s, id), ApplyCall(s, id).requests[id])
  {
    assert RequestAccepted(s, s.requests[id]);
  }

  lemma OtherStepKeepsRowsAccepted(s: Sys, step: Step)
    requires Inv(s) && Accepted(s) && !step.Call?
    ensures RowsAccepted(Apply(s, step))
  {
  }

  lemma ApplyKeepsAccepted(s: Sys, step: Step)
    requires Inv(s) && Accepted(s)
    ensures Accepted(Apply(s, step))
  {
    var s' := Apply(s, step);
    if step.Call? && step.id in s.requests {
      CallKeepsRowsAccepted(s, step.id);
      CallOfAnother(s, step.id);
      CallKeepsRequestAccepted(s, step.id);
    } else if !step.Call? {
      OtherStepKeepsRowsAccepted(s, step);
    }
    forall id | id in s'.requests
      ensures RequestAccepted(s', s'.requests[id])
    {
      if id in s.requests && s'.requests[id] == s.requests[id] {
        assert RequestAccepted(s, s.requests[id]);
        if s.requests[id].pc == ConfirmStart {
          RunsStay(s, step, s.requests[id].req.workflowId);
        }
      }
    }
  }

  lemma {:induction false} ExecKeepsAccepted(s: Sys, steps: seq<Step>)
    requires Inv(s) && Accepted(s)
    ensures Accepted(Exec(s, steps))
  {
    if steps != [] {
      ExecKeepsAccepted(s, steps[..|steps| - 1]);
      ExecKeepsInv(s, steps[..|steps| - 1]);
      ApplyKeepsAccepted(Exec(s, steps[..|steps| - 1]), steps[|steps| - 1]);
    }
  }

  lemma ReachableAccepted(s: Sys)
    requires Reachable(s)
    ensures Accepted(s)
  {
    var catalog, current, steps :| Exec(Init(catalog, current), steps) == s;
    ExecKeepsAccepted(Init(catalog, current), steps);
  }

  // A row is STARTED or COMPLETED only if the engine accepted its workflow.
  lemma StartedMeansAccepted(s: Sys, w: WorkflowId)
    requires Reachable(s) && w in s.db.flows && s.db.flows[w].status != Starting
    ensures w in s.runs
  {
    ReachableAccepted(s);
  }
}
