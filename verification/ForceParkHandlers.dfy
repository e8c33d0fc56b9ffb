/**
The force-park handlers of internal/workflowadmin/force_park.go and the resolve of
internal/workflowadmin/engine_status.go as one admin runs them, on the engine's node table and the task table.
*/
module ForceParkHandlers {
  import opened Wrappers
  import opened ForcePark

  datatype HandlerError = Refused(reason: ParkError) | CloseFailed | SignalFailed

  // An admin's decision on its way to the engine.
  datatype SentSignal = SentSignal(step: StepId, node: NodeId, action: Action)

  class NodeTable {
    var nodes: map<NodeId, Node>
    var signals: seq<SentSignal>

    constructor (nodes: map<NodeId, Node>)
      ensures this.nodes == nodes && signals == []
    {
      this.nodes := nodes;
      signals := [];
    }

    // findParkedNode: a scan, in no particular order, for the parked node whose current run is step.
    method FindParkedNode(step: StepId) returns (r: Option<NodeId>)
      ensures r.Some? ==> step != "" && IsCurrent(nodes, r.value, step) && nodes[r.value].status.AwaitingAdmin?
      ensures r.None? ==> step == "" || forall n :: IsCurrent(nodes, n, step) ==> !nodes[n].status.AwaitingAdmin?
    {
      if step == "" {
        return None;
      }
      var rest := nodes.Keys;
      while rest != {}
        invariant rest <= nodes.Keys
        invariant forall n :: n in nodes && n !in rest && nodes[n].stepId == step ==> !nodes[n].status.AwaitingAdmin?
        decreases rest
      {
        var n :| n in rest;
        if nodes[n].stepId == step && nodes[n].status.AwaitingAdmin? {
          return Some(n);
        }
        rest := rest - {n};
      }
      return None;
    }

    // ResolveAdminIntervention of the manager: the signal is sent, and acted on later.
    method SendResolve(signal: SentSignal, fault: bool) returns (ok: bool)
      modifies this`signals
      ensures ok == !fault
      ensures signals == if ok then old(signals) + [signal] else old(signals)
    {
      if !fault {
        signals := signals + [signal];
      }
      return !fault;
    }

    // findNodeByStep: a scan, in no particular order, of the nodes.
    method FindNodeByStep(step: StepId) returns (r: Option<NodeId>)
      ensures r.Some? ==> step != "" && IsCurrent(nodes, r.value, step)
      ensures r.None? ==> step == "" || forall n :: !IsCurrent(nodes, n, step)
    {
      if step == "" {
        return None;
      }
      var rest := nodes.Keys;
      while rest != {}
        invariant rest <= nodes.Keys
        invariant forall n :: n in nodes && n !in rest ==> nodes[n].stepId != step
        decreases rest
      {
        var n :| n in rest;
        if nodes[n].stepId == step {
          return Some(n);
        }
        rest := rest - {n};
      }
      return None;
    }

    // ForceParkActivation, atomic in the engine.
    method ForceParkActivation(n: NodeId, step: StepId) returns (parked: bool)
      requires n in nodes
      modifies this`nodes
      ensures parked <==> old(nodes[n].stepId == step && nodes[n].status == Running)
      ensures nodes ==
        if parked then old(nodes)[n := old(nodes[n]).(status := AwaitingAdmin(AdminForced))] else old(nodes)
    {
      parked := nodes[n].stepId == step && nodes[n].status == Running;
      if parked {
        nodes := nodes[n := nodes[n].(status := AwaitingAdmin(AdminForced))];
      }
    }
  }

  class TaskTable {
    var tasks: map<StepId, TaskState>

    constructor (tasks: map<StepId, TaskState>)
      ensures this.tasks == tasks
    {
      this.tasks := tasks;
    }

    // CancelTask; a task that is not open is already closed, which the caller takes as success.
    method CancelTask(step: StepId, fault: bool) returns (ok: bool)
      modifies this
      ensures ok == !fault
      ensures tasks ==
        if !fault && step in old(tasks) && old(tasks)[step] == Open then old(tasks)[step := ClosedByPark]
        else old(tasks)
    {
      if fault {
        return false;
      }
      if step in tasks && tasks[step] == Open {
        tasks := tasks[step := ClosedByPark];
      }
      return true;
    }
  }

  predicate Closed(tasks: map<StepId, TaskState>, step: StepId) {
    step in tasks ==> tasks[step] != Open
  }

  predicate Parkable(node: Node, closes: bool) {
    && node.kind == TaskNode
    && (node.status == Running || (closes && node.status == AwaitingAdmin(AdminForced)))
  }

  // forceParkStep with ForceParkTaskNode's close (closes) or ForceParkTaskWorkflowStep's none. Its step is
  // parked first, so a close that fails leaves the step parked for a repeat to finish.
  method ForceParkStep(engine: NodeTable, table: TaskTable, step: StepId, closes: bool, closeFault: bool)
    returns (r: Result<NodeId, HandlerError>)
    requires StepsDiffer(engine.nodes)
    requires forall n :: n in engine.nodes && engine.nodes[n].status == NotStarted ==> engine.nodes[n].stepId == ""
    modifies engine, table
    ensures r.Ok? ==>
      && IsCurrent(engine.nodes, r.value, step) && engine.nodes[r.value].kind == TaskNode
      && !Accepts(engine.nodes, step) && (closes ==> Closed(table.tasks, step))
      && r.value in old(engine.nodes)
      && engine.nodes == old(engine.nodes)[r.value := old(engine.nodes)[r.value].(status := AwaitingAdmin(AdminForced))]
    ensures r.Err? && r.error.Refused? ==> engine.nodes == old(engine.nodes) && table.tasks == old(table.tasks)
    ensures r == Err(CloseFailed) ==>
      closes && closeFault && ParkedBy(engine.nodes, step, AdminForced) && table.tasks == old(table.tasks)
    // It is refused exactly when step names no TASK node that waits, or that an earlier call parked for it to close.
    ensures r.Err? && r.error.Refused? <==>
      step == "" || !exists n :: IsCurrent(old(engine.nodes), n, step) && Parkable(old(engine.nodes)[n], closes)
    ensures r == Err(Refused(UnsupportedNodeType)) <==>
      step != "" && exists n :: IsCurrent(old(engine.nodes), n, step) && old(engine.nodes)[n].kind != TaskNode
    ensures r.Err? && r.error.Refused? ==> r.error.reason in {UnsupportedNodeType, NodeNotWaiting}
    ensures r.Err? && !r.error.Refused? ==> r == Err(CloseFailed)
    // A success closes exactly the task of that step, and only if it closes any.
    ensures r.Ok? && closes && step in old(table.tasks) && old(table.tasks)[step] == Open ==>
      table.tasks == old(table.tasks)[step := ClosedByPark]
    ensures r.Ok? && !(closes && step in old(table.tasks) && old(table.tasks)[step] == Open) ==>
      table.tasks == old(table.tasks)
    ensures r.Ok? && closes ==> !closeFault
  {
    var found := engine.FindNodeByStep(step);
    if found.None? {
      return Err(Refused(NodeNotWaiting));
    }
    var n := found.value;
    var node := engine.nodes[n];
    assert forall m :: IsCurrent(engine.nodes, m, step) ==> m == n;
    if node.kind != TaskNode {
      return Err(Refused(UnsupportedNodeType));
    }
    var alreadyParked := closes && node.status == AwaitingAdmin(AdminForced);
    if node.status != Running && !alreadyParked {
      return Err(Refused(NodeNotWaiting));
    }
    if !alreadyParked {
      var parked := engine.ForceParkActivation(n, step);
    }
    assert IsCurrent(engine.nodes, n, step) && engine.nodes[n].status == AwaitingAdmin(AdminForced);
    if closes {
      var ok := table.CancelTask(step, closeFault);
      if !ok {
        return Err(CloseFailed);
      }
    }
    return Ok(n);
  }

  // resolveAdminIntervention: checks that step is parked and not a gateway to be completed, and sends the signal.
  method ResolveAdminIntervention(engine: NodeTable, step: StepId, action: Action, fault: bool)
    returns (r: Result<NodeId, HandlerError>)
    requires StepsDiffer(engine.nodes)
    requires forall n :: n in engine.nodes && engine.nodes[n].status == NotStarted ==> engine.nodes[n].stepId == ""
    modifies engine`signals
    // It is refused exactly when step names no parked run, or a gateway that cannot be completed.
    ensures r == Err(Refused(NodeNotParked)) <==>
      step == "" || !exists n :: IsCurrent(engine.nodes, n, step) && engine.nodes[n].status.AwaitingAdmin?
    ensures r == Err(Refused(UnsupportedForGateway)) <==>
      && step != "" && action == Complete
      && exists n :: IsCurrent(engine.nodes, n, step) && engine.nodes[n].status.AwaitingAdmin?
                     && engine.nodes[n].kind == GatewayNode
    ensures r.Err? ==> r.error in {Refused(NodeNotParked), Refused(UnsupportedForGateway), SignalFailed}
    ensures r == Err(SignalFailed) ==> fault
    // A success sends one signal, for that step's node and with that action; a refusal and a failure send none.
    ensures r.Ok? ==>
      && !fault && step != "" && IsCurrent(engine.nodes, r.value, step)
      && engine.signals == old(engine.signals) + [SentSignal(step, r.value, action)]
    ensures r.Err? ==> engine.signals == old(engine.signals)
  {
    var found := engine.FindParkedNode(step);
    if found.None? {
      return Err(Refused(NodeNotParked));
    }
    var n := found.value;
    assert forall m :: IsCurrent(engine.nodes, m, step) ==> m == n;
    if engine.nodes[n].kind == GatewayNode && action == Complete {
      return Err(Refused(UnsupportedForGateway));
    }
    var sent := engine.SendResolve(SentSignal(step, n, action), fault);
    assert IsCurrent(engine.nodes, n, step) && engine.nodes[n].status.AwaitingAdmin?;
    if !sent {
      return Err(SignalFailed);
    }
    return Ok(n);
  }
}
