/**
How often a workflow ID runs, and how a retried StartFlow ends.
*/
module FlowStartRuns {
  import opened Wrappers
  import opened CaseRows
  import opened FlowStart
  import opened FlowStartAccepted
  import opened FlowStartSafety
  import CaseHistory

  // ---- A request that begins after its row left STARTING never reaches the engine ----

  ghost predicate PastStarting(s: Sys, w: WorkflowId) {
    w in s.db.flows && s.db.flows[w].status != Starting
  }

  predicate Carries(r: Request, w: WorkflowId) {
    r.req.workflowId == w && InFlight(r.pc)
  }

  // From the request numbered since on, none is on its way to the engine with w, or has been there.
  ghost predicate NoneInFlightSince(s: Sys, w: WorkflowId, since: RequestId, starts: nat) {
    && PastStarting(s, w)
    && (forall id :: id in s.requests && id >= since ==> !Carries(s.requests[id], w))
    && |s.starts| >= starts
    && (forall i :: starts <= i < |s.starts| && s.starts[i].workflowId == w ==> s.starts[i].request < since)
  }

  lemma CallStaysOut(s: Sys, id: RequestId, w: WorkflowId)
    requires PastStarting(s, w) && id in s.requests && !Carries(s.requests[id], w)
    ensures id in ApplyCall(s, id).requests && !Carries(ApplyCall(s, id).requests[id], w)
    ensures forall i :: |s.starts| <= i < |ApplyCall(s, id).starts| ==> ApplyCall(s, id).starts[i].workflowId != w
  {
    forall i | |s.starts| <= i < |ApplyCall(s, id).starts|
      ensures ApplyCall(s, id).starts[i].workflowId != w
    {
    }
  }

  lemma NoneInFlightStays(s: Sys, step: Step, w: WorkflowId, since: RequestId, starts: nat)
    requires since <= s.next && NoneInFlightSince(s, w, since, starts)
    ensures NoneInFlightSince(Apply(s, step), w, since, starts)
  {
    ApplyIsLater(s, step);
    if step.Call? && step.id in s.requests {
      CallOfAnother(s, step.id);
      if step.id >= since {
        CallStaysOut(s, step.id, w);
      }
    }
  }

  lemma {:induction false} NoneInFlightLater(s: Sys, steps: seq<Step>, w: WorkflowId)
    requires Inv(s) && PastStarting(s, w)
    ensures NoneInFlightSince(Exec(s, steps), w, s.next, |s.starts|)
  {
    if steps != [] {
      NoneInFlightLater(s, steps[..|steps| - 1], w);
      ExecIsLater(s, steps[..|steps| - 1]);
      NoneInFlightStays(Exec(s, steps[..|steps| - 1]), steps[|steps| - 1], w, s.next, |s.starts|);
    }
  }

  // Once w is STARTED or COMPLETED, only a request that had already begun can still start it.
  lemma NoLaterStart(s: Sys, steps: seq<Step>, w: WorkflowId, i: nat)
    requires Reachable(s) && w in s.db.flows && s.db.flows[w].status != Starting
    requires |s.starts| <= i < |Exec(s, steps).starts| && Exec(s, steps).starts[i].workflowId == w
    ensures Exec(s, steps).starts[i].request < s.next
  {
    ReachableInv(s);
    NoneInFlightLater(s, steps, w);
  }

  // ---- One run per workflow ID ----

  // A request holds a STARTING read of w that it has not yet taken to the engine.
  predicate HoldsStartingRead(s: Sys, w: WorkflowId) {
    exists id :: id in s.requests && Holding(s.requests[id], w)
  }

  predicate Holding(r: Request, w: WorkflowId) {
    r.req.workflowId == w && (r.pc == LoadRecorded || r.pc == StartEngine)
  }

  predicate Ends(s: Sys, step: Step, w: WorkflowId) {
    step == EndRun(w) && w in s.running && w in s.acked
  }

  // The side condition: no request holds a STARTING read of w across the end of a run of w.
  ghost predicate EndsAreClear(s: Sys, steps: seq<Step>, w: WorkflowId) {
    forall k :: 0 <= k < |steps| && Ends(Exec(s, steps[..k]), steps[k], w) ==>
      !HoldsStartingRead(Exec(s, steps[..k]), w)
  }

  ghost predicate OneRun(s: Sys, w: WorkflowId) {
    && s.runs[w] <= 1
    && (w in s.runs && w !in s.running ==> PastStarting(s, w) && !HoldsStartingRead(s, w))
  }

  // A call begins a run of w only if w is not running, and then for a request that holds a STARTING read of it.
  lemma CallBeginsRun(s: Sys, id: RequestId, w: WorkflowId)
    requires Inv(s) && id in s.requests
    ensures
      var s' := ApplyCall(s, id);
      s'.runs[w] != s.runs[w] ==>
        && w !in s.running && w in s'.running && s'.runs[w] == s.runs[w] + 1
        && Holding(s.requests[id], w)
    ensures w in s.running ==> w in ApplyCall(s, id).running
    ensures w !in s.running && w in ApplyCall(s, id).running ==> Holding(s.requests[id], w)
  {
    assert RequestOk(s, s.requests[id]);
  }

  lemma OneRunStaysOnCall(s: Sys, id: RequestId, w: WorkflowId)
    requires Inv(s) && OneRun(s, w)
    ensures OneRun(Apply(s, Call(id)), w)
  {
    ApplyIsLater(s, Call(id));
    if id in s.requests {
      CallBeginsRun(s, id, w);
    }
    if w in s.runs && w !in s.running {
      NoReadAppears(s, Call(id), w);
    }
  }

  lemma OneRunStays(s: Sys, step: Step, w: WorkflowId)
    requires Inv(s) && OneRun(s, w) && (Ends(s, step, w) ==> !HoldsStartingRead(s, w))
    ensures OneRun(Apply(s, step), w)
  {
    match step
    case Call(id) => OneRunStaysOnCall(s, id, w);
    case _ =>
  }

  lemma CallReadsNoStarting(s: Sys, id: RequestId, w: WorkflowId)
    requires PastStarting(s, w) && id in s.requests && !Holding(s.requests[id], w)
    ensures id in ApplyCall(s, id).requests && !Holding(ApplyCall(s, id).requests[id], w)
  {
  }

  lemma NoReadAppears(s: Sys, step: Step, w: WorkflowId)
    requires PastStarting(s, w) && !HoldsStartingRead(s, w)
    ensures !HoldsStartingRead(Apply(s, step), w)
  {
    var s' := Apply(s, step);
    forall id | id in s'.requests
      ensures !Holding(s'.requests[id], w)
    {
      if step == Call(id) {
        CallReadsNoStarting(s, id, w);
      } else if step.Call? && step.id in s.requests {
        CallOfAnother(s, step.id);
        assert !Holding(s.requests[id], w);
      } else if id in s.requests {
        assert !Holding(s.requests[id], w);
      }
    }
  }

  lemma {:induction false} AtMostOneRunFrom(s: Sys, steps: seq<Step>, w: WorkflowId)
    requires Inv(s) && OneRun(s, w) && EndsAreClear(s, steps, w)
    ensures OneRun(Exec(s, steps), w)
  {
    if steps != [] {
      var before := steps[..|steps| - 1];
      forall k | 0 <= k < |before| && Ends(Exec(s, before[..k]), before[k], w)
        ensures !HoldsStartingRead(Exec(s, before[..k]), w)
      {
        assert before[..k] == steps[..k];
      }
      AtMostOneRunFrom(s, before, w);
      ExecKeepsInv(s, before);
      OneRunStays(Exec(s, before), steps[|steps| - 1], w);
    }
  }

  // A workflow ID gets at most one run in every execution that keeps the side condition.
  lemma AtMostOneRun(catalog: map<DefinitionKey, Definition>, current: int, steps: seq<Step>, w: WorkflowId)
    requires EndsAreClear(Init(catalog, current), steps, w)
    ensures Exec(Init(catalog, current), steps).runs[w] <= 1
  {
    AtMostOneRunFrom(Init(catalog, current), steps, w);
  }

  // The condition is exact: a run's end is final if and only if no request holds such a read across it.
  lemma EndIsFinalIff(s: Sys, w: WorkflowId)
    requires Reachable(s) && s.runs[w] == 1 && w in s.running && w in s.acked
    ensures (forall more :: Exec(Apply(s, EndRun(w)), more).runs[w] == 1) <==> !HoldsStartingRead(s, w)
  {
    ReachableInv(s);
    var e := Apply(s, EndRun(w));
    ApplyKeepsInv(s, EndRun(w));
    if HoldsStartingRead(s, w) {
      StaleReadRunsAgain(s, w);
    } else {
      forall more
        ensures Exec(e, more).runs[w] == 1
      {
        FinalEnd(e, more, w);
      }
    }
  }

  lemma {:induction false} FinalEnd(s: Sys, more: seq<Step>, w: WorkflowId)
    requires Inv(s) && s.runs[w] == 1 && w !in s.running && OneRun(s, w)
    ensures Exec(s, more).runs[w] == 1 && w !in Exec(s, more).running && OneRun(Exec(s, more), w) && Inv(Exec(s, more))
  {
    if more != [] {
      var m := Exec(s, more[..|more| - 1]);
      FinalEnd(s, more[..|more| - 1], w);
      ApplyKeepsInv(m, more[|more| - 1]);
      OneRunStays(m, more[|more| - 1], w);
      NoRunBegins(m, more[|more| - 1], w);
    }
  }

  lemma NoRunBegins(s: Sys, step: Step, w: WorkflowId)
    requires !HoldsStartingRead(s, w)
    ensures Apply(s, step).runs[w] == s.runs[w]
    ensures w !in s.running ==> w !in Apply(s, step).running
  {
    if step.Call? && step.id in s.requests {
      assert !Holding(s.requests[step.id], w);
    }
  }

  lemma StaleStartRunsAgain(s: Sys, id: RequestId, w: WorkflowId)
    requires s.runs[w] == 1 && w !in s.running && id in s.requests && RequestOk(s, s.requests[id])
    requires s.requests[id].req.workflowId == w && s.requests[id].pc == StartEngine
    ensures Exec(s, [Call(id)]).runs[w] == 2
  {
    assert [Call(id)][..0] == [];
    assert Exec(s, [Call(id)]) == Apply(Exec(s, []), Call(id));
  }

  lemma ExecFirst(s: Sys, step: Step, next: Step)
    ensures Exec(s, [step, next]) == Exec(Apply(s, step), [next])
  {
    assert [step, next][..1] == [step] && [step][..0] == [] && [next][..0] == [];
    assert Exec(s, [step]) == Apply(Exec(s, []), step);
  }

  lemma StaleReadRunsAgain(s: Sys, w: WorkflowId)
    requires Inv(s) && s.runs[w] == 1 && w in s.running && w in s.acked && HoldsStartingRead(s, w)
    ensures exists more :: Exec(Apply(s, EndRun(w)), more).runs[w] == 2
  {
    var e := Apply(s, EndRun(w));
    var id :| id in s.requests && Holding(s.requests[id], w);
    ApplyKeepsInv(s, EndRun(w));
    assert RequestOk(e, e.requests[id]);
    if s.requests[id].pc == StartEngine {
      StaleStartRunsAgain(e, id, w);
    } else {
      StaleStartRunsAgain(ApplyCall(e, id), id, w);
      ExecFirst(e, Call(id), Call(id));
    }
  }

  // ---- A retry ends, and ends well ----

  // The most calls a request can still make.
  function CallsLeft(pc: Pc): nat {
    match pc
    case Lookup => 7
    case LoadCurrent => 6
    case Recording => 5
    case Reread => 4
    case LoadRecorded => 3
    case StartEngine => 2
    case ConfirmStart => 1
    case Answered(_) => 0
  }

  function CallsOf(steps: seq<Step>, id: RequestId): nat {
    if steps == [] then 0
    else CallsOf(steps[..|steps| - 1], id) + if steps[|steps| - 1] == Call(id) then 1 else 0
  }

  predicate NeverLost(steps: seq<Step>, id: RequestId) {
    Lose(id) !in steps
  }

  lemma CallIsProgress(s: Sys, id: RequestId)
    requires RowsLoad(s) && id in s.requests && RequestOk(s, s.requests[id])
    ensures
      var pc, pc' := s.requests[id].pc, ApplyCall(s, id).requests[id].pc;
      (pc.Answered? ==> pc' == pc) && (!pc.Answered? ==> CallsLeft(pc') < CallsLeft(pc))
    ensures ApplyCall(s, id).requests[id].req == s.requests[id].req
  {
  }

  lemma OtherStepsLeaveRequest(s: Sys, step: Step, id: RequestId)
    requires Inv(s) && id in s.requests && step != Call(id) && step != Lose(id)
    ensures id in Apply(s, step).requests && Apply(s, step).requests[id] == s.requests[id]
  {
    if step.Call? && step.id in s.requests {
      CallOfAnother(s, step.id);
    }
  }

  // A request that has made n calls and not been answered has at most seven to make in all.
  predicate OnItsWay(r: Request, calls: nat) {
    r.pc.Answered? || CallsLeft(r.pc) + calls <= 7
  }

  lemma StepIsOnItsWay(s: Sys, step: Step, id: RequestId, calls: nat)
    requires Inv(s) && id in s.requests && step != Lose(id) && OnItsWay(s.requests[id], calls)
    ensures id in Apply(s, step).requests && Apply(s, step).requests[id].req == s.requests[id].req
    ensures OnItsWay(Apply(s, step).requests[id], calls + if step == Call(id) then 1 else 0)
  {
    if step == Call(id) {
      assert RequestOk(s, s.requests[id]);
      CallIsProgress(s, id);
    } else {
      OtherStepsLeaveRequest(s, step, id);
    }
  }

  // Whatever else happens in between, a request whose calls all succeed is answered by its seventh.
  lemma {:induction false} RequestIsAnswered(s: Sys, steps: seq<Step>, id: RequestId)
    requires Inv(s) && id in s.requests && NeverLost(steps, id)
    ensures id in Exec(s, steps).requests && Exec(s, steps).requests[id].req == s.requests[id].req
    ensures OnItsWay(Exec(s, steps).requests[id], CallsOf(steps, id))
    ensures CallsOf(steps, id) >= 7 ==> Exec(s, steps).requests[id].pc.Answered?
  {
    if steps != [] {
      var before, last := steps[..|steps| - 1], steps[|steps| - 1];
      assert NeverLost(before, id);
      RequestIsAnswered(s, before, id);
      ExecKeepsInv(s, before);
      var e := Exec(s, before);
      assert Exec(s, steps) == Apply(e, last);
      StepIsOnItsWay(e, last, id, CallsOf(before, id));
    }
  }

  // Every version current during steps holds the template.
  predicate CurrentHolds(s: Sys, steps: seq<Step>, templateId: string) {
    && DefinitionKey(s.current, templateId) in s.catalog
    && forall i :: 0 <= i < |steps| && steps[i].Deploy? ==> DefinitionKey(steps[i].version, templateId) in s.catalog
  }

  lemma {:induction false} CurrentStillHolds(s: Sys, steps: seq<Step>, templateId: string)
    requires CurrentHolds(s, steps, templateId)
    ensures DefinitionKey(Exec(s, steps).current, templateId) in s.catalog
  {
    if steps != [] {
      CurrentStillHolds(s, steps[..|steps| - 1], templateId);
    }
  }

  // A repeat of a recorded workflow ID never asks for the current version.
  predicate PastLookup(r: Request) {
    r.req.chosen && (r.pc == Lookup || InFlight(r.pc) || (r.pc.Answered? && r.pc.outcome != UnknownTemplate))
  }

  predicate TemplateKnown(r: Request) {
    r.pc != Answered(UnknownTemplate)
  }

  lemma StepKeepsTemplateKnown(s: Sys, step: Step, id: RequestId)
    requires Inv(s) && id in s.requests && step != Lose(id) && TemplateKnown(s.requests[id])
    requires DefinitionKey(s.current, s.requests[id].req.templateId) in s.catalog
    ensures id in Apply(s, step).requests && TemplateKnown(Apply(s, step).requests[id])
  {
    if step == Call(id) {
      assert RequestOk(s, s.requests[id]);
    } else {
      OtherStepsLeaveRequest(s, step, id);
    }
  }

  lemma {:induction false} TemplateStaysKnown(s: Sys, steps: seq<Step>, id: RequestId)
    requires Inv(s) && id in s.requests && NeverLost(steps, id) && TemplateKnown(s.requests[id])
    requires CurrentHolds(s, steps, s.requests[id].req.templateId)
    ensures id in Exec(s, steps).requests && TemplateKnown(Exec(s, steps).requests[id])
  {
    if steps != [] {
      var before, last := steps[..|steps| - 1], steps[|steps| - 1];
      assert NeverLost(before, id);
      TemplateStaysKnown(s, before, id);
      RequestIsAnswered(s, before, id);
      CurrentStillHolds(s, before, s.requests[id].req.templateId);
      ExecKeepsInv(s, before);
      ExecIsLater(s, before);
      StepKeepsTemplateKnown(Exec(s, before), last, id);
    }
  }

  lemma StepKeepsPastLookup(s: Sys, step: Step, id: RequestId)
    requires Inv(s) && id in s.requests && step != Lose(id) && PastLookup(s.requests[id])
    requires s.requests[id].req.workflowId in s.db.flows
    ensures id in Apply(s, step).requests && PastLookup(Apply(s, step).requests[id])
  {
    if step == Call(id) {
      assert RequestOk(s, s.requests[id]);
    } else {
      OtherStepsLeaveRequest(s, step, id);
    }
  }

  lemma {:induction false} RepeatStaysPastLookup(s: Sys, steps: seq<Step>, id: RequestId)
    requires Inv(s) && id in s.requests && NeverLost(steps, id) && PastLookup(s.requests[id])
    requires s.requests[id].req.workflowId in s.db.flows
    ensures id in Exec(s, steps).requests && PastLookup(Exec(s, steps).requests[id])
  {
    if steps != [] {
      var before, last := steps[..|steps| - 1], steps[|steps| - 1];
      assert NeverLost(before, id);
      RepeatStaysPastLookup(s, before, id);
      RequestIsAnswered(s, before, id);
      ExecKeepsInv(s, before);
      ExecIsLater(s, before);
      StepKeepsPastLookup(Exec(s, before), last, id);
    }
  }

  // StartFlow for req, begun in s and never lost, has made its calls beside whatever else steps holds.
  ghost predicate Completes(s: Sys, req: StartRequest, steps: seq<Step>) {
    Reachable(s) && ValidRequest(req) && NeverLost(steps, s.next) && CallsOf(steps, s.next) >= 7
  }

  // Such a request is answered in a state that keeps the invariants.
  lemma CompletedIsAnswered(s: Sys, req: StartRequest, steps: seq<Step>)
    requires Completes(s, req, steps)
    ensures
      var b := Apply(s, Begin(req));
      var e := Exec(b, steps);
      && Inv(b) && Inv(e) && Accepted(e) && Later(b, e)
      && s.next in b.requests && s.next in e.requests
      && e.requests[s.next].req == req && e.requests[s.next].pc.Answered?
  {
    ReachableInv(s);
    ReachableAccepted(s);
    var b := Apply(s, Begin(req));
    ApplyKeepsInv(s, Begin(req));
    ApplyKeepsAccepted(s, Begin(req));
    RequestIsAnswered(b, steps, s.next);
    ExecKeepsInv(b, steps);
    ExecKeepsAccepted(b, steps);
    ExecIsLater(b, steps);
  }

  // What is returned is the recorded flow, as started.
  predicate ReturnsStarted(outcome: Outcome, flows: map<WorkflowId, FlowRow>, w: WorkflowId) {
    && outcome.Returned? && w in flows && outcome.row.status != Starting
    && outcome.row == flows[w].(status := outcome.row.status)
  }

  // From any state crashed or failed attempts left, one more StartFlow with the recorded case and template
  // whose calls succeed returns, with the row STARTED or COMPLETED and the workflow taken by the engine.
  lemma RetryEndsStarted(s: Sys, req: StartRequest, steps: seq<Step>)
    requires Completes(s, req, steps) && req.chosen && req.workflowId in s.db.flows
    requires s.db.flows[req.workflowId].caseId == req.caseId && s.db.flows[req.workflowId].templateId == req.templateId
    ensures
      var e := Exec(Apply(s, Begin(req)), steps);
      && s.next in e.requests && e.requests[s.next].pc.Answered? && e.requests[s.next].pc.outcome.Returned?
      && ReturnsStarted(e.requests[s.next].pc.outcome, e.db.flows, req.workflowId)
      && req.workflowId in e.db.flows && e.db.flows[req.workflowId].status != Starting
      && CaseHistory.SameFlow(e.db.flows[req.workflowId], s.db.flows[req.workflowId])
      && req.workflowId in e.runs
  {
    CompletedIsAnswered(s, req, steps);
    var b := Apply(s, Begin(req));
    RepeatStaysPastLookup(b, steps, s.next);
    assert RequestOk(Exec(b, steps), Exec(b, steps).requests[s.next]);
  }

  // The same for any request whose template every current version holds: it returns, with the workflow taken by
  // the engine, or the row that won the insert has another case or template.
  lemma StartEndsStartedOrConflict(s: Sys, req: StartRequest, steps: seq<Step>)
    requires Completes(s, req, steps) && CurrentHolds(s, steps, req.templateId)
    ensures
      var e := Exec(Apply(s, Begin(req)), steps);
      && s.next in e.requests && e.requests[s.next].pc.Answered? && req.workflowId in e.db.flows
      && var outcome := e.requests[s.next].pc.outcome;
         var row := e.db.flows[req.workflowId];
         if row.caseId == req.caseId && row.templateId == req.templateId then
           && ReturnsStarted(outcome, e.db.flows, req.workflowId)
           && e.db.flows[req.workflowId].status != Starting && req.workflowId in e.runs
         else
           outcome == Conflict
  {
    CompletedIsAnswered(s, req, steps);
    var b := Apply(s, Begin(req));
    TemplateStaysKnown(b, steps, s.next);
    assert RequestOk(Exec(b, steps), Exec(b, steps).requests[s.next]);
  }

  // A request whose workflow ID is recorded with another case or template never changes a row or reaches
  // the engine, whichever of its calls it is at.
  lemma RepeatWithOtherDetailsChangesNothing(s: Sys, id: RequestId)
    requires Reachable(s) && id in s.requests
    requires
      var req := s.requests[id].req;
      && req.workflowId in s.db.flows
      && var row := s.db.flows[req.workflowId];
         row.caseId != req.caseId || row.templateId != req.templateId
    ensures
      var s' := Apply(s, Call(id));
      s'.db == s.db && s'.running == s.running && s'.runs == s.runs && s'.starts == s.starts
  {
    ReachableInv(s);
    assert RequestOk(s, s.requests[id]);
  }

  // And named by its caller, it is refused at its first call.
  lemma RepeatWithOtherDetailsIsRefused(s: Sys, req: StartRequest, steps: seq<Step>)
    requires Reachable(s) && ValidRequest(req) && req.chosen
    requires
      && req.workflowId in s.db.flows
      && var row := s.db.flows[req.workflowId];
         row.caseId != req.caseId || row.templateId != req.templateId
    requires NeverLost(steps, s.next) && CallsOf(steps, s.next) >= 1
    ensures
      var e := Exec(Apply(s, Begin(req)), steps);
      s.next in e.requests && e.requests[s.next].pc == Answered(Conflict)
  {
    ReachableInv(s);
    ApplyKeepsInv(s, Begin(req));
    RefusedAtFirstCall(Apply(s, Begin(req)), steps, s.next);
  }

  lemma {:induction false} RefusedAtFirstCall(s: Sys, steps: seq<Step>, id: RequestId)
    requires Inv(s) && id in s.requests && NeverLost(steps, id) && s.requests[id].pc == Lookup
    requires
      var req := s.requests[id].req;
      req.workflowId in s.db.flows && !Agrees(req, s.db.flows[req.workflowId])
    ensures id in Exec(s, steps).requests && Exec(s, steps).requests[id].req == s.requests[id].req
    ensures Exec(s, steps).requests[id].pc == if CallsOf(steps, id) == 0 then Lookup else Answered(Conflict)
  {
    if steps != [] {
      var before, last := steps[..|steps| - 1], steps[|steps| - 1];
      assert NeverLost(before, id);
      RefusedAtFirstCall(s, before, id);
      ExecKeepsInv(s, before);
      ExecIsLater(s, before);
      if last != Call(id) {
        OtherStepsLeaveRequest(Exec(s, before), last, id);
      }
    }
  }
}
