/**
What each call of a force-park or a resolve does in any state that can be reached: when it is accepted, what it
changes, and where it leaves its handler.
*/
module ForceParkCalls {
  import opened Wrappers
  import opened ForcePark
  import opened ForceParkSafety

  ghost predicate SameTables(s: Sys, s': Sys) {
    s'.nodes == s.nodes && s'.tasks == s.tasks && s'.used == s.used && s'.parks == s.parks
  }

  predicate IsNext(s: Sys, id: nat, pc: Pc) {
    id in s.handlers && s.handlers[id].pc == pc
  }

  // ---- Resolve ----

  // A resolve is refused unless its step is parked, and a COMPLETE of a parked gateway too; any other is signalled.
  lemma ResolveIsCheckedFirst(s: Sys, id: nat, f: StepId, n: NodeId)
    requires Reachable(s) && IsNext(s, id, ReadStatus) && s.handlers[id].Resolve? && s.handlers[id].step != ""
    requires IsCurrent(s.nodes, n, s.handlers[id].step)
    ensures
      var s' := Apply(s, Call(id, f));
      && SameTables(s, s')
      && if !s.nodes[n].status.AwaitingAdmin? then IsNext(s', id, Answered(Err(NodeNotParked)))
         else if s.nodes[n].kind == GatewayNode && s.handlers[id].action == Complete
         then IsNext(s', id, Answered(Err(UnsupportedForGateway)))
         else IsNext(s', id, Signal)
  {
    ReachableInv(s);
  }

  // A step that is no node's current run, the empty one included, resolves nothing.
  lemma ResolveOfNoRunIsRefused(s: Sys, id: nat, f: StepId)
    requires IsNext(s, id, ReadStatus) && s.handlers[id].Resolve?
    requires s.handlers[id].step == "" || forall n :: !IsCurrent(s.nodes, n, s.handlers[id].step)
    ensures SameTables(s, Apply(s, Call(id, f))) && IsNext(Apply(s, Call(id, f)), id, Answered(Err(NodeNotParked)))
  {
  }

  // The signal of a RETRY gives a step that is still parked a new run under a new step, with a new task if it is a
  // TASK; that of a COMPLETE or an ABORT ends it. Either answers success.
  lemma SignalResolvesParked(s: Sys, id: nat, f: StepId, n: NodeId)
    requires Reachable(s) && IsNext(s, id, Signal) && s.handlers[id].Resolve?
    requires IsCurrent(s.nodes, n, s.handlers[id].step) && s.nodes[n].status.AwaitingAdmin?
    requires f != "" && f !in s.used
    ensures
      var s' := Apply(s, Call(id, f));
      && IsNext(s', id, Answered(Ok(()))) && s'.parks == s.parks
      && if s.handlers[id].action == Retry then
           && s'.nodes == s.nodes[n := Node(s.nodes[n].kind, f, Running)]
           && s'.tasks == if s.nodes[n].kind == TaskNode then s.tasks[f := Open] else s.tasks
         else
           && s'.nodes == s.nodes[n := Node(s.nodes[n].kind, s.nodes[n].stepId, Over)]
           && s'.tasks == s.tasks
  {
    ReachableInv(s);
    assert HandlerOk(s, s.handlers[id]);
  }

  // The signal for a step that is no longer parked is dropped, and still answered with success.
  lemma LateSignalIsDropped(s: Sys, id: nat, f: StepId)
    requires Reachable(s) && IsNext(s, id, Signal)
    requires forall n :: IsCurrent(s.nodes, n, s.handlers[id].step) ==> !s.nodes[n].status.AwaitingAdmin?
    ensures SameTables(s, Apply(s, Call(id, f))) && IsNext(Apply(s, Call(id, f)), id, Answered(Ok(())))
  {
    ReachableInv(s);
    assert HandlerOk(s, s.handlers[id]);
  }

  // A task's completion is accepted exactly while its step is running, which it then ends; that of a step that has been
  // parked is rejected.
  lemma CompletionIsAcceptedIff(s: Sys, step: StepId)
    requires Reachable(s)
    ensures
      var s' := Apply(s, Report(step));
      && s'.tasks == s.tasks && s'.handlers == s.handlers && s'.parks == s.parks
      && (s'.nodes != s.nodes <==> step != "" && Accepts(s.nodes, step))
      && (s'.nodes != s.nodes ==>
            exists n :: IsCurrent(s.nodes, n, step) && s'.nodes == s.nodes[n := Node(s.nodes[n].kind, step, Over)])
  {
    ReachableInv(s);
    if step != "" && Accepts(s.nodes, step) {
      var n :| IsCurrent(s.nodes, n, step) && s.nodes[n].status == Running;
    }
  }

  // ---- Force-park ----

  // A force-park goes on to park a TASK that is waiting, and to close the task of one an earlier call parked, if it
  // closes any; every other step is refused, for its type or for not waiting.
  lemma ParkIsCheckedFirst(s: Sys, id: nat, f: StepId, n: NodeId)
    requires Reachable(s) && IsNext(s, id, ReadStatus) && s.handlers[id].Park? && s.handlers[id].step != ""
    requires IsCurrent(s.nodes, n, s.handlers[id].step)
    ensures
      var s', node := Apply(s, Call(id, f)), s.nodes[n];
      && SameTables(s, s')
      && if node.kind != TaskNode then IsNext(s', id, Answered(Err(UnsupportedNodeType)))
         else if node.status == Running then IsNext(s', id, ParkStep)
         else if s.handlers[id].closes && node.status == AwaitingAdmin(AdminForced) then IsNext(s', id, CloseTask)
         else IsNext(s', id, Answered(Err(NodeNotWaiting)))
  {
    ReachableInv(s);
  }

  lemma ParkOfNoRunIsRefused(s: Sys, id: nat, f: StepId)
    requires IsNext(s, id, ReadStatus) && s.handlers[id].Park?
    requires s.handlers[id].step == "" || forall n :: !IsCurrent(s.nodes, n, s.handlers[id].step)
    ensures SameTables(s, Apply(s, Call(id, f))) && IsNext(Apply(s, Call(id, f)), id, Answered(Err(NodeNotWaiting)))
  {
  }

  // The park itself takes effect exactly when the step is still waiting; otherwise the call is refused.
  lemma ParkTakesEffect(s: Sys, id: nat, f: StepId, n: NodeId)
    requires Reachable(s) && IsNext(s, id, ParkStep) && s.handlers[id].Park?
    requires IsCurrent(s.nodes, n, s.handlers[id].step)
    ensures
      var s', h := Apply(s, Call(id, f)), s.handlers[id];
      && s'.tasks == s.tasks
      && if s.nodes[n].status == Running then
           && s'.nodes == s.nodes[n := Node(TaskNode, h.step, AwaitingAdmin(AdminForced))]
           && s'.parks == s.parks + [h.step]
           && IsNext(s', id, if h.closes then CloseTask else Answered(Ok(())))
         else
           SameTables(s, s') && IsNext(s', id, Answered(Err(NodeNotWaiting)))
  {
    ReachableInv(s);
    assert HandlerOk(s, s.handlers[id]);
  }

  // The close ends an open task, takes any other as closed already, and touches nothing else.
  lemma CloseEndsTheTask(s: Sys, id: nat, f: StepId)
    requires Reachable(s) && IsNext(s, id, CloseTask)
    ensures
      var s', step := Apply(s, Call(id, f)), s.handlers[id].step;
      && IsNext(s', id, Answered(Ok(()))) && s'.nodes == s.nodes && s'.parks == s.parks
      && s'.tasks == if step in s.tasks && s.tasks[step] == Open then s.tasks[step := ClosedByPark] else s.tasks
  {
  }

  // So with nothing in between, force-parking a waiting TASK leaves its step parked and its task closed,
  lemma ParkOfWaiting(s: Sys, n: NodeId)
    requires Reachable(s) && n in s.nodes && s.nodes[n].kind == TaskNode && s.nodes[n].status == Running
    ensures
      var step := s.nodes[n].stepId;
      var call := Call(s.next, "");
      var parked := Exec(s, [BeginPark(step, true), call, call, call]);
      && IsNext(parked, s.next, Answered(Ok(())))
      && parked.nodes == s.nodes[n := Node(TaskNode, step, AwaitingAdmin(AdminForced))]
      && parked.tasks == if step in s.tasks && s.tasks[step] == Open then s.tasks[step := ClosedByPark] else s.tasks
  {
    var step, call := s.nodes[n].stepId, Call(s.next, "");
    ReachableInv(s);
    assert step in s.used;
    var a := Apply(s, BeginPark(step, true));
    ReachableStep(s, BeginPark(step, true));
    ParkIsCheckedFirst(a, s.next, "", n);
    var b := Apply(a, call);
    ReachableStep(a, call);
    ParkTakesEffect(b, s.next, "", n);
    var c := Apply(b, call);
    ReachableStep(b, call);
    CloseEndsTheTask(c, s.next, "");
    FourSteps(s, BeginPark(step, true), call, call, call);
  }

  // and the RETRY of a step so parked gives it a new run under a new step, with a new task.
  lemma RetryOfParked(s: Sys, n: NodeId, f: StepId)
    requires Reachable(s) && n in s.nodes && s.nodes[n].kind == TaskNode
    requires s.nodes[n].status == AwaitingAdmin(AdminForced)
    requires f != "" && f !in s.used
    ensures
      var again := Exec(s, [BeginResolve(s.nodes[n].stepId, Retry), Call(s.next, ""), Call(s.next, f)]);
      && IsNext(again, s.next, Answered(Ok(())))
      && again.nodes == s.nodes[n := Node(TaskNode, f, Running)] && again.tasks == s.tasks[f := Open]
  {
    var step := s.nodes[n].stepId;
    ReachableInv(s);
    assert step in s.used;
    var a := Apply(s, BeginResolve(step, Retry));
    var b := Apply(a, Call(s.next, ""));
    ReachableStep(s, BeginResolve(step, Retry));
    ReachableStep(a, Call(s.next, ""));
    ResolveIsCheckedFirst(a, s.next, "", n);
    SignalResolvesParked(b, s.next, f, n);
    ThreeSteps(s, BeginResolve(step, Retry), Call(s.next, ""), Call(s.next, f));
  }

  lemma ReachableStep(s: Sys, step: Step)
    requires Reachable(s)
    ensures Reachable(Apply(s, step))
  {
    var init, steps :| Fresh(init) && Exec(init, steps) == s;
    assert (steps + [step])[..|steps|] == steps;
    assert Exec(init, steps + [step]) == Apply(s, step);
  }

  lemma ThreeSteps(s: Sys, a: Step, b: Step, c: Step)
    ensures Exec(s, [a, b, c]) == Apply(Apply(Apply(s, a), b), c)
  {
    assert [a, b, c][..2] == [a, b] && [a, b][..1] == [a] && [a][..0] == [];
    assert Exec(s, []) == s && Exec(s, [a]) == Apply(s, a) && Exec(s, [a, b]) == Apply(Apply(s, a), b);
  }

  lemma FourSteps(s: Sys, a: Step, b: Step, c: Step, d: Step)
    ensures Exec(s, [a, b, c, d]) == Apply(Apply(Apply(Apply(s, a), b), c), d)
  {
    assert [a, b, c, d][..3] == [a, b, c];
    ThreeSteps(s, a, b, c);
  }
}
