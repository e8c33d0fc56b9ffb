/**
What force-park promises over every interleaving with its own repeats, admin resolves and completions.
*/
module ForceParkSafety {
  import opened Wrappers
  import opened ForcePark

  // ---- The invariant ----

  ghost predicate TableOk(s: Sys) {
    && (forall n :: n in s.nodes && s.nodes[n].status != NotStarted ==> s.nodes[n].stepId in s.used)
    && (forall n :: n in s.nodes && s.nodes[n].status == NotStarted ==> s.nodes[n].stepId == "")
    && "" !in s.used
    && StepsDiffer(s.nodes)
    && (forall st :: st in s.tasks ==> st in s.used)
    && (forall n :: n in s.nodes && s.nodes[n].status == AwaitingAdmin(AdminForced) ==> s.nodes[n].kind == TaskNode)
  }

  // Once a used step stops accepting completions, it never does again.
  ghost predicate Stopped(s: Sys, st: StepId) {
    st in s.used && !Accepts(s.nodes, st)
  }

  ghost predicate HandlerOk(s: Sys, h: Handler) {
    && (h.pc == CloseTask ==> h.Park? && h.closes && Stopped(s, h.step))
    && (h.pc == ParkStep ==>
          && h.Park? && h.step in s.used
          && forall n :: IsCurrent(s.nodes, n, h.step) ==> s.nodes[n].kind == TaskNode)
    && (h.pc == Signal ==> h.Resolve? && h.step in s.used)
    && (h.pc == Signal && h.Resolve? && h.action == Complete ==>
          forall n :: IsCurrent(s.nodes, n, h.step) ==> s.nodes[n].kind != GatewayNode)
    && (h.Park? && h.closes && h.pc == Answered(Ok(())) ==>
          Stopped(s, h.step) && (h.step in s.tasks ==> s.tasks[h.step] != Open))
  }

  ghost predicate HandlersOk(s: Sys) {
    forall id :: id in s.handlers ==> id < s.next && HandlerOk(s, s.handlers[id])
  }

  ghost predicate ClosesOk(s: Sys) {
    forall st :: st in s.tasks && s.tasks[st] == ClosedByPark ==> Stopped(s, st)
  }

  ghost predicate ParksOk(s: Sys) {
    && (forall i :: 0 <= i < |s.parks| ==> Stopped(s, s.parks[i]))
    && (forall i, j :: 0 <= i < j < |s.parks| ==> s.parks[i] != s.parks[j])
  }

  ghost predicate Inv(s: Sys) {
    TableOk(s) && HandlersOk(s) && ClosesOk(s) && ParksOk(s)
  }

  // What every step leaves in place.
  ghost predicate Later(s: Sys, s': Sys) {
    && s.used <= s'.used && s.next <= s'.next
    && (forall st :: Stopped(s, st) ==> Stopped(s', st))
    // A used step is never given to another node, and no node changes its type.
    && (forall n, st :: st in s.used && IsCurrent(s'.nodes, n, st) ==>
          IsCurrent(s.nodes, n, st) && s'.nodes[n].kind == s.nodes[n].kind)
    && (forall st :: st in s.tasks ==> st in s'.tasks && (s.tasks[st] != Open ==> s'.tasks[st] == s.tasks[st]))
    && (forall st :: st in s'.tasks && st !in s.tasks ==> st !in s.used)
  }

  lemma StatusChange(s: Sys, n: NodeId, status: NodeStatus)
    requires TableOk(s) && n in s.nodes && s.nodes[n].status != NotStarted && status != NotStarted && status != Running
    requires status == AwaitingAdmin(AdminForced) ==> s.nodes[n].kind == TaskNode
    ensures TableOk(SetStatus(s, n, status)) && Later(s, SetStatus(s, n, status))
    ensures Stopped(SetStatus(s, n, status), s.nodes[n].stepId)
  {
    assert s.nodes[n].stepId in s.used;
  }

  lemma RunStarts(s: Sys, n: NodeId, newStep: StepId)
    requires TableOk(s) && n in s.nodes && s.nodes[n].status != Running
    ensures TableOk(StartRun(s, n, newStep)) && Later(s, StartRun(s, n, newStep))
  {
  }

  // Nothing but a handler's own next call changes the two tables together.
  lemma StepIsLater(s: Sys, step: Step)
    requires Inv(s)
    ensures TableOk(Apply(s, step)) && Later(s, Apply(s, step))
  {
    match step
    case Call(id, newStep) =>
      if id in s.handlers {
        CallIsLater(s, s.handlers[id], newStep);
      }
    case Visit(n, newStep) =>
      if n in s.nodes && (s.nodes[n].status == NotStarted || s.nodes[n].status == Over) {
        RunStarts(s, n, newStep);
      }
    case SelfPark(n) =>
      if n in s.nodes && s.nodes[n].status == Running {
        StatusChange(s, n, AwaitingAdmin(OtherCause));
      }
    case Report(st) =>
      if FindNode(s.nodes, st).Some? && s.nodes[FindNode(s.nodes, st).value].status == Running {
        StatusChange(s, FindNode(s.nodes, st).value, Over);
      }
    case _ =>
  }

  lemma CallIsLater(s: Sys, h: Handler, newStep: StepId)
    requires TableOk(s) && HandlerOk(s, h)
    ensures TableOk(CallTables(s, h, newStep)) && Later(s, CallTables(s, h, newStep))
  {
    var n := FindNode(s.nodes, h.step);
    if h.pc == ParkStep && n.Some? && s.nodes[n.value].status == Running {
      StatusChange(s, n.value, AwaitingAdmin(AdminForced));
    } else if h.pc == Signal && n.Some? && s.nodes[n.value].status.AwaitingAdmin? {
      RunStarts(s, n.value, newStep);
      StatusChange(s, n.value, Over);
    }
  }

  lemma HandlerStays(s: Sys, s': Sys, h: Handler)
    requires Later(s, s') && HandlerOk(s, h)
    ensures HandlerOk(s', h)
  {
  }

  lemma CallKeepsHandler(s: Sys, id: nat, newStep: StepId)
    requires TableOk(s) && id in s.handlers && HandlerOk(s, s.handlers[id])
    ensures HandlerOk(ApplyCall(s, id, newStep), ApplyCall(s, id, newStep).handlers[id])
  {
    var h := s.handlers[id];
    CallIsLater(s, h, newStep);
    var n := FindNode(s.nodes, h.step);
    if h.pc == ParkStep && n.Some? && s.nodes[n.value].status == Running {
      StatusChange(s, n.value, AwaitingAdmin(AdminForced));
    } else if h.pc == ReadStatus && n.Some? && s.nodes[n.value].status == AwaitingAdmin(AdminForced) {
      StoppedWhenNotRunning(s, n.value);
    }
  }

  lemma StoppedWhenNotRunning(s: Sys, n: NodeId)
    requires TableOk(s) && n in s.nodes && s.nodes[n].status != Running && s.nodes[n].status != NotStarted
    ensures Stopped(s, s.nodes[n].stepId)
  {
  }

  lemma CallKeepsLogs(s: Sys, h: Handler, newStep: StepId)
    requires TableOk(s) && HandlerOk(s, h) && ClosesOk(s) && ParksOk(s)
    ensures ClosesOk(CallTables(s, h, newStep)) && ParksOk(CallTables(s, h, newStep))
  {
    var n := FindNode(s.nodes, h.step);
    if h.pc == ParkStep && n.Some? && s.nodes[n.value].status == Running {
    } else if h.pc == CloseTask {
    } else {
      CallIsLater(s, h, newStep);
      LaterKeepsLogs(s, CallTables(s, h, newStep));
    }
  }

  lemma LaterKeepsLogs(s: Sys, s': Sys)
    requires Later(s, s') && ClosesOk(s) && ParksOk(s) && s'.parks == s.parks
    requires forall st :: st in s'.tasks && s'.tasks[st] == ClosedByPark ==>
      st in s.tasks && s.tasks[st] == ClosedByPark
    ensures ClosesOk(s') && ParksOk(s')
  {
  }

  lemma ApplyKeepsHandlers(s: Sys, step: Step)
    requires Inv(s)
    ensures HandlersOk(Apply(s, step))
  {
    StepIsLater(s, step);
    var s' := Apply(s, step);
    forall id | id in s'.handlers
      ensures id < s'.next && HandlerOk(s', s'.handlers[id])
    {
      if step.Call? && step.id == id {
        CallKeepsHandler(s, id, step.newStep);
      } else if id in s.handlers && s'.handlers[id] == s.handlers[id] {
        HandlerStays(s, s', s.handlers[id]);
      }
    }
  }

  lemma ApplyKeepsLogs(s: Sys, step: Step)
    requires Inv(s)
    ensures ClosesOk(Apply(s, step)) && ParksOk(Apply(s, step))
  {
    if step.Call? && step.id in s.handlers {
      CallKeepsLogs(s, s.handlers[step.id], step.newStep);
    } else {
      StepIsLater(s, step);
      LaterKeepsLogs(s, Apply(s, step));
    }
  }

  lemma ApplyKeepsInv(s: Sys, step: Step)
    requires Inv(s)
    ensures Inv(Apply(s, step))
  {
    StepIsLater(s, step);
    ApplyKeepsHandlers(s, step);
    ApplyKeepsLogs(s, step);
  }

  lemma {:induction false} ExecKeepsInv(s: Sys, steps: seq<Step>)
    requires Inv(s)
    ensures Inv(Exec(s, steps))
  {
    if steps != [] {
      ExecKeepsInv(s, steps[..|steps| - 1]);
      ApplyKeepsInv(Exec(s, steps[..|steps| - 1]), steps[|steps| - 1]);
    }
  }

  lemma {:induction false} ExecIsLater(s: Sys, steps: seq<Step>)
    requires Inv(s)
    ensures Later(s, Exec(s, steps))
  {
    if steps != [] {
      ExecIsLater(s, steps[..|steps| - 1]);
      ExecKeepsInv(s, steps[..|steps| - 1]);
      StepIsLater(Exec(s, steps[..|steps| - 1]), steps[|steps| - 1]);
    }
  }

  lemma ReachableInv(s: Sys)
    requires Reachable(s)
    ensures Inv(s)
  {
    var init, steps :| Fresh(init) && Exec(init, steps) == s;
    ExecKeepsInv(init, steps);
  }

  // ---- The promises ----

  // Only a handler closing its own step's task closes one.
  lemma OnlyCloseCloses(s: Sys, step: Step, st: StepId)
    requires st in Apply(s, step).tasks && Apply(s, step).tasks[st] == ClosedByPark
    requires !(st in s.tasks && s.tasks[st] == ClosedByPark)
    ensures step.Call? && step.id in s.handlers
    ensures s.handlers[step.id].pc == CloseTask && s.handlers[step.id].step == st
  {
  }

  lemma StaysStopped(s: Sys, more: seq<Step>, st: StepId)
    requires Inv(s) && Stopped(s, st)
    ensures !Accepts(Exec(s, more).nodes, st)
  {
    ExecIsLater(s, more);
  }

  // A task force-park closed is one whose step had already stopped accepting its completion, for good.
  lemma ClosedOnlyAfterStopping(s: Sys, step: Step, st: StepId, more: seq<Step>)
    requires Reachable(s)
    requires st in Apply(s, step).tasks && Apply(s, step).tasks[st] == ClosedByPark
    requires !(st in s.tasks && s.tasks[st] == ClosedByPark)
    ensures !Accepts(s.nodes, st)
    ensures !Accepts(Exec(Apply(s, step), more).nodes, st)
  {
    ReachableInv(s);
    OnlyCloseCloses(s, step, st);
    assert HandlerOk(s, s.handlers[step.id]);
    ApplyKeepsInv(s, step);
    StaysStopped(Apply(s, step), more, st);
  }

  // No step is force-parked twice.
  lemma ParkedAtMostOnce(s: Sys, i: nat, j: nat)
    requires Reachable(s) && i < |s.parks| && j < |s.parks| && s.parks[i] == s.parks[j]
    ensures i == j
  {
    ReachableInv(s);
  }

  // A ForceParkTaskNode that succeeds leaves its step stopped and its task closed.
  lemma ForceParkedMeansClosed(s: Sys, id: nat)
    requires Reachable(s) && id in s.handlers && s.handlers[id].Park? && s.handlers[id].closes
    requires s.handlers[id].pc == Answered(Ok(()))
    ensures
      var st := s.handlers[id].step;
      !Accepts(s.nodes, st) && (st in s.tasks ==> s.tasks[st] != Open)
  {
    ReachableInv(s);
    assert HandlerOk(s, s.handlers[id]);
  }

  predicate NotCalled(steps: seq<Step>, id: nat) {
    forall i :: 0 <= i < |steps| ==> !(steps[i].Call? && steps[i].id == id) && steps[i] != Lose(id)
  }

  lemma StepLeavesHandler(s: Sys, step: Step, id: nat)
    requires Inv(s) && id in s.handlers && !(step.Call? && step.id == id) && step != Lose(id)
    ensures id in Apply(s, step).handlers && Apply(s, step).handlers[id] == s.handlers[id]
  {
  }

  lemma {:induction false} HandlerUntouched(s: Sys, steps: seq<Step>, id: nat)
    requires Inv(s) && id in s.handlers && NotCalled(steps, id)
    ensures id in Exec(s, steps).handlers && Exec(s, steps).handlers[id] == s.handlers[id]
  {
    if steps != [] {
      var before := steps[..|steps| - 1];
      HandlerUntouched(s, before, id);
      ExecKeepsInv(s, before);
      StepLeavesHandler(Exec(s, before), steps[|steps| - 1], id);
    }
  }

  // Repeating the call while the step is still force-parked finishes with the task closed, whatever else
  // happens between its two calls: an admin may even resolve the step in between.
  lemma RepeatFinishesTheClose(s: Sys, id: nat, f: StepId, between: seq<Step>, g: StepId)
    requires Reachable(s) && id in s.handlers && s.handlers[id].Park? && s.handlers[id].closes
    requires s.handlers[id].pc == ReadStatus && s.handlers[id].step != ""
    requires ParkedBy(s.nodes, s.handlers[id].step, AdminForced)
    requires NotCalled(between, id)
    ensures
      var e := Apply(Exec(Apply(s, Call(id, f)), between), Call(id, g));
      && id in e.handlers && e.handlers[id].pc == Answered(Ok(()))
      && (s.handlers[id].step in e.tasks ==> e.tasks[s.handlers[id].step] != Open)
      && e.parks == Exec(Apply(s, Call(id, f)), between).parks
  {
    ReachableInv(s);
    var st := s.handlers[id].step;
    var m := Apply(s, Call(id, f));
    ApplyKeepsInv(s, Call(id, f));
    assert m.handlers[id].pc == CloseTask by {
      var n :| IsCurrent(s.nodes, n, st) && s.nodes[n].kind == TaskNode &&
        s.nodes[n].status == AwaitingAdmin(AdminForced);
      assert FindNode(s.nodes, st) == Some(n) by {
        assert IsCurrent(s.nodes, FindNode(s.nodes, st).value, st);
      }
    }
    HandlerUntouched(m, between, id);
    ExecKeepsInv(m, between);
  }

  // Once the step is over or has gone, a repeat is refused and closes nothing: a resolve that moves the
  // step on before the close is repeated leaves the task as it was.
  lemma RepeatAfterTheStepIsRefused(s: Sys, id: nat, f: StepId)
    requires Reachable(s) && id in s.handlers && s.handlers[id].Park? && s.handlers[id].pc == ReadStatus
    requires Stopped(s, s.handlers[id].step) && !ParkedBy(s.nodes, s.handlers[id].step, AdminForced)
    ensures
      var e := Apply(s, Call(id, f));
      e.tasks == s.tasks && e.nodes == s.nodes && e.handlers[id].pc.Answered? && e.handlers[id].pc.result.Err?
  {
    ReachableInv(s);
    var h := s.handlers[id];
    var n := FindNode(s.nodes, h.step);
    if n.Some? {
      assert s.nodes[n.value].status != Running;
    }
  }

  // ForceParkTaskWorkflowStep never closes a task, and never takes an earlier park as its own.
  lemma StepParkLeavesTheTask(s: Sys, id: nat, f: StepId)
    requires Reachable(s) && id in s.handlers && s.handlers[id].Park? && !s.handlers[id].closes
    ensures Apply(s, Call(id, f)).tasks == s.tasks
    ensures s.handlers[id].pc == ReadStatus && !Accepts(s.nodes, s.handlers[id].step) ==>
      Apply(s, Call(id, f)).handlers[id].pc.Answered? && Apply(s, Call(id, f)).handlers[id].pc.result.Err?
  {
    ReachableInv(s);
    assert HandlerOk(s, s.handlers[id]);
  }

  // A resolve signal changes only a step that is parked when the engine reads it, and only once.
  lemma SignalActsOnParkedOnly(s: Sys, id: nat, f: StepId)
    requires Reachable(s) && id in s.handlers && s.handlers[id].Resolve? && s.handlers[id].pc == Signal
    ensures
      var st := s.handlers[id].step;
      var e := Apply(s, Call(id, f));
      && (e.nodes != s.nodes ==> exists n :: IsCurrent(s.nodes, n, st) && s.nodes[n].status.AwaitingAdmin?)
      && (e.nodes != s.nodes ==> forall n :: IsCurrent(e.nodes, n, st) ==> !e.nodes[n].status.AwaitingAdmin?)
      && Accepts(e.nodes, st) == Accepts(s.nodes, st)
  {
    ReachableInv(s);
    var st := s.handlers[id].step;
    var n := FindNode(s.nodes, st);
    CallIsLater(s, s.handlers[id], f);
    if n.Some? && s.nodes[n.value].status.AwaitingAdmin? {
      StoppedWhenNotRunning(s, n.value);
    }
  }

  // A GATEWAY is never completed by a resolve, however late its signal lands.
  lemma GatewayIsNeverCompleted(s: Sys, id: nat, f: StepId, n: NodeId)
    requires Reachable(s) && id in s.handlers && s.handlers[id].Resolve? && s.handlers[id].action == Complete
    requires n in s.nodes && s.nodes[n].kind == GatewayNode
    ensures n in Apply(s, Call(id, f)).nodes && Apply(s, Call(id, f)).nodes[n] == s.nodes[n]
  {
    ReachableInv(s);
    assert HandlerOk(s, s.handlers[id]);
    assert s.handlers[id].pc == Signal ==> !IsCurrent(s.nodes, n, s.handlers[id].step);
  }

  // Only a TASK node is ever force-parked.
  lemma OnlyTasksAreForceParked(s: Sys, n: NodeId)
    requires Reachable(s) && n in s.nodes && s.nodes[n].status == AwaitingAdmin(AdminForced)
    ensures s.nodes[n].kind == TaskNode
  {
    ReachableInv(s);
  }
}
