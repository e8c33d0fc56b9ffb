/**
What StartFlow promises over every interleaving of requests, crashes, deploys, callbacks and run ends.
*/
module FlowStartSafety {
  import opened Wrappers
  import opened CaseRows
  import opened FlowStart
  import CaseHistory

  // ---- The invariant ----

  predicate HasRow(s: Sys, w: WorkflowId) {
    w in s.db.flows
  }

  // A request that has read its row as STARTING and may still reach the engine, or has just reached it.
  predicate InFlight(pc: Pc) {
    pc == LoadRecorded || pc == StartEngine || pc == ConfirmStart
  }

  function RecordedKey(row: FlowRow): DefinitionKey {
    DefinitionKey(row.manifestVersion, row.templateId)
  }

  ghost predicate RequestOk(s: Sys, r: Request) {
    var w := r.req.workflowId;
    && (r.pc == Recording || r.pc == Reread ==>
          && DefinitionKey(r.version, r.req.templateId) in s.catalog
          && r.def == Some(s.catalog[DefinitionKey(r.version, r.req.templateId)]))
    && (r.pc == Reread ==> HasRow(s, w))
    && (InFlight(r.pc) ==>
          && r.row.Some? && r.row.value.status == Starting && Agrees(r.req, r.row.value)
          && HasRow(s, w) && CaseHistory.SameFlow(r.row.value, s.db.flows[w]))
    && (r.pc == StartEngine || r.pc == ConfirmStart ==>
          && r.def.Some? && RecordedKey(r.row.value) in s.catalog && r.def.value == s.catalog[RecordedKey(r.row.value)])
    && (r.pc.Answered? ==> OutcomeOk(s, r))
  }

  ghost predicate OutcomeOk(s: Sys, r: Request)
    requires r.pc.Answered?
  {
    var w := r.req.workflowId;
    match r.pc.outcome
    case Returned(row) =>
      && HasRow(s, w) && s.db.flows[w].status != Starting && row.status != Starting
      && Agrees(r.req, s.db.flows[w]) && CaseHistory.SameFlow(row, s.db.flows[w])
    case Conflict => HasRow(s, w) && !Agrees(r.req, s.db.flows[w])
    case UnknownTemplate => DefinitionKey(r.version, r.req.templateId) !in s.catalog
    case InvalidRequest => !ValidRequest(r.req)
  }

  // What a start carries is what its flow's row says.
  ghost predicate StartOk(s: Sys, start: Start) {
    && HasRow(s, start.workflowId)
    && var row := s.db.flows[start.workflowId];
       && RecordedKey(row) in s.catalog
       && start.def == s.catalog[RecordedKey(row)]
       && start.vars == StartVars(row)
  }

  ghost predicate EngineOk(s: Sys) {
    && (forall w :: w in s.running ==> w in s.runs)
    && (forall w :: w in s.runs ==> HasRow(s, w))
    && (forall w :: w in s.acked ==> w in s.running && s.db.flows[w].status == Completed)
    && (forall w :: w in s.runs && w !in s.running ==> s.db.flows[w].status == Completed)
  }

  // A flow is recorded only once its template has been loaded at its version.
  ghost predicate RowsLoad(s: Sys) {
    forall w :: w in s.db.flows ==> RecordedKey(s.db.flows[w]) in s.catalog
  }

  ghost predicate Inv(s: Sys) {
    && RowsLoad(s)
    && (forall id :: id in s.requests ==> id < s.next && RequestOk(s, s.requests[id]))
    && (forall i :: 0 <= i < |s.starts| ==> StartOk(s, s.starts[i]))
    && EngineOk(s)
  }

  // Every step moves the rows forward and keeps the catalog, so what a request or a start relies on stays.
  ghost predicate Later(s: Sys, s': Sys) {
    CaseHistory.Forward(s.db, s'.db) && s'.catalog == s.catalog && s.next <= s'.next
  }

  lemma ApplyIsLater(s: Sys, step: Step)
    ensures Later(s, Apply(s, step))
  {
    match step
    case Call(id) =>
      if id in s.requests {
        CallIsLater(s, id);
      }
    case EnsureCase(c) => CaseHistory.AtomicMovesForward(s.db, Op.EnsureCase(c));
    case Callback(w) => CaseHistory.AtomicMovesForward(s.db, MarkCompleted(w));
    case _ =>
  }

  // The whole transaction a call runs on the rows, if it runs one.
  function CallOp(r: Request): Option<Op> {
    match r.pc
    case Recording => Some(Record(NewRow(r.req, r.version), r.req.owner, r.req.info))
    case ConfirmStart => Some(MarkStarted(r.req.workflowId))
    case _ => None
  }

  lemma CallRunsOp(s: Sys, id: RequestId)
    requires id in s.requests
    ensures
      var s', op := ApplyCall(s, id), CallOp(s.requests[id]);
      && s'.catalog == s.catalog && s'.next == s.next && s'.acked == s.acked
      && (s'.db == s.db || (op.Some? && s'.db == Atomic(s.db, op.value)))
      && (s.requests[id].pc != StartEngine ==> SameEngine(s, s'))
  {
  }

  lemma CallIsLater(s: Sys, id: RequestId)
    requires id in s.requests
    ensures Later(s, ApplyCall(s, id))
  {
    CallRunsOp(s, id);
    if CallOp(s.requests[id]).Some? {
      CaseHistory.AtomicMovesForward(s.db, CallOp(s.requests[id]).value);
    }
  }

  lemma RequestStays(s: Sys, s': Sys, r: Request)
    requires Later(s, s') && RequestOk(s, r)
    ensures RequestOk(s', r)
  {
  }

  lemma StartStays(s: Sys, s': Sys, start: Start)
    requires Later(s, s') && StartOk(s, start)
    ensures StartOk(s', start)
  {
  }

  lemma CallKeepsRequest(s: Sys, id: RequestId)
    requires RowsLoad(s) && id in s.requests && RequestOk(s, s.requests[id])
    ensures id in ApplyCall(s, id).requests
    ensures RequestOk(ApplyCall(s, id), ApplyCall(s, id).requests[id])
  {
    match s.requests[id].pc
    case Lookup =>
    case LoadCurrent =>
    case Recording =>
    case Reread => RereadKeepsRequest(s, id);
    case LoadRecorded =>
    case StartEngine =>
    case ConfirmStart =>
    case Answered(_) =>
  }

  lemma RereadKeepsRequest(s: Sys, id: RequestId)
    requires RowsLoad(s) && id in s.requests && RequestOk(s, s.requests[id]) && s.requests[id].pc == Reread
    ensures RequestOk(ApplyCall(s, id), ApplyCall(s, id).requests[id])
  {
    var r := s.requests[id];
    var row := s.db.flows[r.req.workflowId];
    if row.manifestVersion == r.version && Agrees(r.req, row) {
      assert RecordedKey(row) == DefinitionKey(r.version, r.req.templateId);
    }
  }

  predicate SameEngine(s: Sys, s': Sys) {
    s'.running == s.running && s'.acked == s.acked && s'.runs == s.runs && s'.starts == s.starts
  }

  ghost predicate StartsOk(s: Sys) {
    forall i :: 0 <= i < |s.starts| ==> StartOk(s, s.starts[i])
  }

  lemma EngineStays(s: Sys, s': Sys)
    requires Later(s, s') && EngineOk(s) && StartsOk(s) && SameEngine(s, s')
    ensures EngineOk(s') && StartsOk(s')
  {
    forall i | 0 <= i < |s'.starts|
      ensures StartOk(s', s'.starts[i])
    {
      StartStays(s, s', s.starts[i]);
    }
  }

  lemma StartCallKeepsEngine(s: Sys, id: RequestId)
    requires Inv(s) && id in s.requests && s.requests[id].pc == StartEngine
    ensures EngineOk(ApplyCall(s, id)) && StartsOk(ApplyCall(s, id))
  {
    var r := s.requests[id];
    var w := r.req.workflowId;
    var s' := ApplyCall(s, id);
    assert RequestOk(s, r);
    assert StartVars(r.row.value) == StartVars(s.db.flows[w]);
    assert forall v :: v in s'.runs <==> v in s.runs || (v == w && w !in s.running);
    forall i | 0 <= i < |s'.starts|
      ensures StartOk(s', s'.starts[i])
    {
      if i < |s.starts| {
        assert StartOk(s, s.starts[i]);
      }
    }
  }

  lemma CallbackKeepsEngine(s: Sys, w: WorkflowId)
    requires Inv(s) && w in s.running && w in s.db.flows
    ensures EngineOk(Apply(s, Callback(w))) && StartsOk(Apply(s, Callback(w)))
  {
    var s' := Apply(s, Callback(w));
    var m := s.(db := s'.db);
    ApplyIsLater(s, Callback(w));
    EngineStays(s, m);
    assert s'.db.flows[w].status == Completed;
    forall i | 0 <= i < |s'.starts|
      ensures StartOk(s', s'.starts[i])
    {
      assert StartOk(m, m.starts[i]);
    }
  }

  lemma EndKeepsEngine(s: Sys, w: WorkflowId)
    requires Inv(s) && w in s.running && w in s.acked
    ensures EngineOk(Apply(s, EndRun(w))) && StartsOk(Apply(s, EndRun(w)))
  {
    forall i | 0 <= i < |s.starts|
      ensures StartOk(Apply(s, EndRun(w)), s.starts[i])
    {
      assert StartOk(s, s.starts[i]);
    }
  }

  lemma OtherStepKeepsEngine(s: Sys, step: Step)
    requires Inv(s) && !step.Call?
    ensures EngineOk(Apply(s, step)) && StartsOk(Apply(s, step))
  {
    if step.Callback? && step.workflowId in s.running && step.workflowId in s.db.flows {
      CallbackKeepsEngine(s, step.workflowId);
    } else if step.EndRun? && step.workflowId in s.running && step.workflowId in s.acked {
      EndKeepsEngine(s, step.workflowId);
    } else {
      ApplyIsLater(s, step);
      EngineStays(s, Apply(s, step));
    }
  }

  lemma ApplyKeepsRequest(s: Sys, step: Step, id: RequestId)
    requires Inv(s) && id in Apply(s, step).requests
    ensures id < Apply(s, step).next && RequestOk(Apply(s, step), Apply(s, step).requests[id])
  {
    ApplyIsLater(s, step);
    match step
    case Begin(req) =>
      if id in s.requests && id != s.next {
        RequestStays(s, Apply(s, step), s.requests[id]);
      }
    case Call(other) =>
      if other in s.requests {
        CallOfAnother(s, other);
      }
      if other == id {
        CallKeepsRequest(s, id);
      } else {
        RequestStays(s, Apply(s, step), s.requests[id]);
      }
    case _ =>
      RequestStays(s, Apply(s, step), s.requests[id]);
  }

  // A call writes only its own request, and adds only its own start.
  lemma CallOfAnother(s: Sys, id: RequestId)
    requires id in s.requests
    ensures
      var s' := ApplyCall(s, id);
      && s'.requests.Keys == s.requests.Keys && s'.next == s.next
      && (forall other :: other in s.requests && other != id ==> s'.requests[other] == s.requests[other])
      && s.starts <= s'.starts
      && (forall i :: |s.starts| <= i < |s'.starts| ==> s'.starts[i].request == id)
  {
  }

  lemma RecordingKeepsRowsLoad(s: Sys, id: RequestId)
    requires Inv(s) && id in s.requests && s.requests[id].pc == Recording
    ensures RowsLoad(ApplyCall(s, id))
  {
    var r := s.requests[id];
    assert RequestOk(s, r);
    assert RecordedKey(StartingRow(NewRow(r.req, r.version))) == DefinitionKey(r.version, r.req.templateId);
  }

  lemma OtherCallKeepsRowsLoad(s: Sys, id: RequestId)
    requires Inv(s) && id in s.requests && s.requests[id].pc != Recording
    ensures RowsLoad(ApplyCall(s, id))
  {
    ApplyIsLater(s, Call(id));
  }

  lemma ApplyKeepsRowsLoad(s: Sys, step: Step)
    requires Inv(s)
    ensures RowsLoad(Apply(s, step))
  {
    match step
    case Call(id) =>
      if id in s.requests {
        if s.requests[id].pc == Recording {
          RecordingKeepsRowsLoad(s, id);
        } else {
          OtherCallKeepsRowsLoad(s, id);
        }
      }
    case _ => OtherStepKeepsRowsLoad(s, step);
  }

  lemma OtherStepKeepsRowsLoad(s: Sys, step: Step)
    requires Inv(s) && !step.Call?
    ensures RowsLoad(Apply(s, step))
  {
    ApplyIsLater(s, step);
  }

  lemma ApplyKeepsEngine(s: Sys, step: Step)
    requires Inv(s)
    ensures EngineOk(Apply(s, step)) && StartsOk(Apply(s, step))
  {
    if !step.Call? {
      OtherStepKeepsEngine(s, step);
    } else if step.id in s.requests {
      if s.requests[step.id].pc == StartEngine {
        StartCallKeepsEngine(s, step.id);
      } else {
        CallRunsOp(s, step.id);
        CallIsLater(s, step.id);
        EngineStays(s, ApplyCall(s, step.id));
      }
    }
  }

  lemma ApplyKeepsInv(s: Sys, step: Step)
    requires Inv(s)
    ensures Inv(Apply(s, step))
  {
    ApplyKeepsRowsLoad(s, step);
    forall id | id in Apply(s, step).requests
      ensures id < Apply(s, step).next && RequestOk(Apply(s, step), Apply(s, step).requests[id])
    {
      ApplyKeepsRequest(s, step, id);
    }
    ApplyKeepsEngine(s, step);
  }

  lemma {:induction false} ExecKeepsInv(s: Sys, steps: seq<Step>)
    requires Inv(s)
    ensures Inv(Exec(s, steps))
  {
    if steps != [] {
      ExecKeepsInv(s, steps[..|steps| - 1]);
      ApplyKeepsInv(Exec(s, steps[..|steps| - 1]), steps[|steps| - 1]);
    }
  }

  lemma {:induction false} ExecIsLater(s: Sys, steps: seq<Step>)
    ensures Later(s, Exec(s, steps))
  {
    if steps != [] {
      ExecIsLater(s, steps[..|steps| - 1]);
      ApplyIsLater(Exec(s, steps[..|steps| - 1]), steps[|steps| - 1]);
    }
  }

  ghost predicate Reachable(s: Sys) {
    exists catalog, current, steps :: Exec(Init(catalog, current), steps) == s
  }

  lemma ReachableInv(s: Sys)
    requires Reachable(s)
    ensures Inv(s)
  {
    var catalog, current, steps :| Exec(Init(catalog, current), steps) == s;
    ExecKeepsInv(Init(catalog, current), steps);
  }

  // ---- Every start of a workflow ID carries what its row says ----

  lemma StartsAgree(s: Sys, i: nat, j: nat)
    requires Reachable(s) && i < |s.starts| && j < |s.starts| && s.starts[i].workflowId == s.starts[j].workflowId
    ensures s.starts[i].workflowId in s.db.flows
    ensures
      var row := s.db.flows[s.starts[i].workflowId];
      && s.starts[i] == s.starts[j].(request := s.starts[i].request)
      && DefinitionKey(row.manifestVersion, row.templateId) in s.catalog
      && s.starts[i].def == s.catalog[DefinitionKey(row.manifestVersion, row.templateId)]
      && VarsAreOf(s.starts[i].vars, row)
  {
    ReachableInv(s);
    assert StartOk(s, s.starts[i]) && StartOk(s, s.starts[j]);
    StartVarsAre(s.db.flows[s.starts[i].workflowId]);
  }

  // The row those starts follow is that of the insert that won: nothing later changes what it was
  // recorded with, and its status only moves forward.
  lemma RowIsTheFirstInsert(s: Sys, steps: seq<Step>, w: WorkflowId)
    requires w in s.db.flows
    ensures w in Exec(s, steps).db.flows
    ensures CaseHistory.SameFlow(s.db.flows[w], Exec(s, steps).db.flows[w])
    ensures CaseHistory.Rank(s.db.flows[w].status) <= CaseHistory.Rank(Exec(s, steps).db.flows[w].status)
  {
    ExecIsLater(s, steps);
  }
}
