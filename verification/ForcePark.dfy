/**
Force-park and resolve of internal/workflowadmin. The engine's node table and the task table are two
systems with no transaction across them: each call is atomic on one of them, and any number of
force-parks, their repeats, admin resolves and task completions interleave between calls.
*/
module ForcePark {
  import opened Wrappers

  type NodeId = string
  // A step is one run of a node; the task a TASK node starts is named after it.
  type StepId = string

  datatype NodeType = TaskNode | GatewayNode | OtherNode

  datatype ParkCategory = AdminForced | OtherCause

  datatype NodeStatus = NotStarted | Running | AwaitingAdmin(category: ParkCategory) | Over

  datatype Node = Node(kind: NodeType, stepId: StepId, status: NodeStatus)

  datatype TaskState = Open | Finished | ClosedByPark

  datatype ParkError = NodeNotWaiting | UnsupportedNodeType | NodeNotParked | UnsupportedForGateway

  datatype Action = Retry | Complete | Abort

  // ---- The node table ----

  predicate IsCurrent(nodes: map<NodeId, Node>, n: NodeId, step: StepId) {
    n in nodes && nodes[n].stepId == step
  }

  // The node whose current run is step accepts its task's completion only while it is running.
  ghost predicate Accepts(nodes: map<NodeId, Node>, step: StepId) {
    exists n :: IsCurrent(nodes, n, step) && nodes[n].status == Running
  }

  ghost predicate ParkedBy(nodes: map<NodeId, Node>, step: StepId, category: ParkCategory) {
    exists n :: IsCurrent(nodes, n, step) && nodes[n].kind == TaskNode && nodes[n].status == AwaitingAdmin(category)
  }

  // Every started node runs under a step of its own.
  predicate StepsDiffer(nodes: map<NodeId, Node>) {
    forall m, n | m in nodes && n in nodes && m != n && nodes[m].status != NotStarted ::
      nodes[n].status != NotStarted ==> nodes[m].stepId != nodes[n].stepId
  }

  // findNodeByStep: the empty step names no node.
  ghost function FindNode(nodes: map<NodeId, Node>, step: StepId): (r: Option<NodeId>)
    ensures r.Some? <==> step != "" && exists n :: IsCurrent(nodes, n, step)
    ensures r.Some? ==> IsCurrent(nodes, r.value, step)
  {
    if step != "" && exists n :: IsCurrent(nodes, n, step) then
      var n :| IsCurrent(nodes, n, step);
      Some(n)
    else
      None
  }

  // findForceParkNode: the node and whether an earlier call already force-parked it.
  ghost function FindForceParkNode(nodes: map<NodeId, Node>, step: StepId, allowParked: bool)
    : Result<(NodeId, bool), ParkError>
  {
    match FindNode(nodes, step)
    case None => Err(NodeNotWaiting)
    case Some(n) =>
      if nodes[n].kind != TaskNode then Err(UnsupportedNodeType)
      else
        var parked := allowParked && nodes[n].status == AwaitingAdmin(AdminForced);
        if nodes[n].status != Running && !parked then Err(NodeNotWaiting) else Ok((n, parked))
  }

  // What resolveAdminIntervention checks before it signals.
  ghost function CheckResolve(nodes: map<NodeId, Node>, step: StepId, action: Action): Result<NodeId, ParkError> {
    match FindNode(nodes, step)
    case None => Err(NodeNotParked)
    case Some(n) =>
      if !nodes[n].status.AwaitingAdmin? then Err(NodeNotParked)
      else if nodes[n].kind == GatewayNode && action == Complete then Err(UnsupportedForGateway)
      else Ok(n)
  }

  // ---- Handlers, between two of their calls ----

  datatype Pc = ReadStatus | ParkStep | CloseTask | Signal | Answered(result: Result<(), ParkError>)

  // closes says the handler closes the step's task after parking it (ForceParkTaskNode), or leaves it open
  // (ForceParkTaskWorkflowStep).
  datatype Handler = Park(step: StepId, closes: bool, pc: Pc) | Resolve(step: StepId, action: Action, pc: Pc)

  // parks lists the steps force-park parked, used every step ever given to a node.
  datatype Sys = Sys(
    nodes: map<NodeId, Node>, used: set<StepId>, tasks: map<StepId, TaskState>,
    next: nat, handlers: map<nat, Handler>, parks: seq<StepId>)

  // Call is a handler's next call, succeeding; Lose is that handler failing or crashing instead. Signalled
  // is the engine acting on a resolve signal, which it drops if the step is no longer parked. Visit is a
  // node starting a run under a new step; SelfPark is one parking for a cause of its own; TaskEnds is a
  // task finishing, and Report its completion reaching the node, in either order.
  datatype Step =
    | BeginPark(step: StepId, closes: bool)
    | BeginResolve(step: StepId, action: Action)
    | Call(id: nat, newStep: StepId)
    | Lose(id: nat)
    | Visit(n: NodeId, newStep: StepId)
    | SelfPark(n: NodeId)
    | TaskEnds(step: StepId)
    | Report(step: StepId)

  // A run of node n under the step newStep, with an open task if n is a TASK node.
  function StartRun(s: Sys, n: NodeId, newStep: StepId): Sys
    requires n in s.nodes
  {
    if newStep in s.used || newStep == "" then s
    else
      s.(nodes := s.nodes[n := s.nodes[n].(stepId := newStep, status := Running)],
         used := s.used + {newStep},
         tasks := if s.nodes[n].kind == TaskNode then s.tasks[newStep := Open] else s.tasks)
  }

  function SetStatus(s: Sys, n: NodeId, status: NodeStatus): Sys
    requires n in s.nodes
  {
    s.(nodes := s.nodes[n := s.nodes[n].(status := status)])
  }

  // The call of handler h on one of the tables.
  ghost function CallTables(s: Sys, h: Handler, newStep: StepId): Sys {
    match h.pc
    case ParkStep =>
      // ForceParkActivation: refused once the step no longer waits.
      var n := FindNode(s.nodes, h.step);
      if n.Some? && s.nodes[n.value].status == Running then
        SetStatus(s, n.value, AwaitingAdmin(AdminForced)).(parks := s.parks + [h.step])
      else
        s
    case CloseTask =>
      // CancelTask: a task that is no longer open is already closed.
      if h.step in s.tasks && s.tasks[h.step] == Open then s.(tasks := s.tasks[h.step := ClosedByPark]) else s
    case Signal =>
      var n := FindNode(s.nodes, h.step);
      if n.Some? && s.nodes[n.value].status.AwaitingAdmin? && h.Resolve? then
        if h.action == Retry then StartRun(s, n.value, newStep) else SetStatus(s, n.value, Over)
      else
        s
    case _ => s
  }

  // Where that call leaves the handler.
  ghost function CallPc(s: Sys, h: Handler): Pc {
    match h.pc
    case ReadStatus =>
      if h.Park? then
        match FindForceParkNode(s.nodes, h.step, h.closes)
        case Err(e) => Answered(Err(e))
        case Ok((_, parked)) => if parked then CloseTask else ParkStep
      else
        (match CheckResolve(s.nodes, h.step, h.action)
         case Err(e) => Answered(Err(e))
         case Ok(_) => Signal)
    case ParkStep =>
      var n := FindNode(s.nodes, h.step);
      if n.None? || s.nodes[n.value].status != Running then Answered(Err(NodeNotWaiting))
      else if h.Park? && h.closes then CloseTask
      else Answered(Ok(()))
    case CloseTask => Answered(Ok(()))
    case Signal => Answered(Ok(()))
    case Answered(_) => h.pc
  }

  ghost function ApplyCall(s: Sys, id: nat, newStep: StepId): Sys
    requires id in s.handlers
  {
    var h := s.handlers[id];
    CallTables(s, h, newStep).(handlers := s.handlers[id := h.(pc := CallPc(s, h))])
  }

  // A step that cannot be taken changes nothing.
  ghost function Apply(s: Sys, step: Step): Sys {
    match step
    case BeginPark(st, closes) => s.(next := s.next + 1, handlers := s.handlers[s.next := Park(st, closes, ReadStatus)])
    case BeginResolve(st, action) =>
      s.(next := s.next + 1, handlers := s.handlers[s.next := Resolve(st, action, ReadStatus)])
    case Call(id, newStep) => if id in s.handlers then ApplyCall(s, id, newStep) else s
    case Lose(id) => s.(handlers := s.handlers - {id})
    case Visit(n, newStep) =>
      if n in s.nodes && (s.nodes[n].status == NotStarted || s.nodes[n].status == Over) then
        StartRun(s, n, newStep)
      else
        s
    case SelfPark(n) =>
      if n in s.nodes && s.nodes[n].status == Running then SetStatus(s, n, AwaitingAdmin(OtherCause)) else s
    case TaskEnds(st) =>
      if st in s.tasks && s.tasks[st] == Open then s.(tasks := s.tasks[st := Finished]) else s
    case Report(st) =>
      (match FindNode(s.nodes, st)
       case None => s
       case Some(n) => if s.nodes[n].status == Running then SetStatus(s, n, Over) else s)
  }

  ghost function Exec(s: Sys, steps: seq<Step>): Sys {
    if steps == [] then s else Apply(Exec(s, steps[..|steps| - 1]), steps[|steps| - 1])
  }

  // A workflow none of whose nodes has started.
  ghost predicate Fresh(s: Sys) {
    && (forall n :: n in s.nodes ==> s.nodes[n].stepId == "" && s.nodes[n].status == NotStarted)
    && s.used == {} && s.tasks == map[] && s.handlers == map[] && s.parks == []
  }

  ghost predicate Reachable(s: Sys) {
    exists init, steps :: Fresh(init) && Exec(init, steps) == s
  }
}
