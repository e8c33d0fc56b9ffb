/**
Where everything recorded and started comes from: in every execution the rows are those of running whole operations
one after another, each as some request, callback or consignment asked for it, and a start carries what the request
whose record won gave.
*/
module FlowStartSource {
  import opened Wrappers
  import opened CaseRows
  import opened FlowStart
  import opened FlowStartSafety
  import CaseHistory

  // What a valid request has recorded, on a version that was current.
  predicate RecordsFor(req: StartRequest, op: Op, current: int, steps: seq<Step>) {
    && op.Record?
    && op.flow.workflowId == req.workflowId && op.flow.caseId == req.caseId && op.flow.templateId == req.templateId
    && op.flow.payload == req.vars && op.owner == req.owner && op.info == req.info
    && WasCurrent(current, steps, op.flow.manifestVersion)
  }

  predicate WasCurrent(current: int, steps: seq<Step>, version: int) {
    version == current || Deploy(version) in steps
  }

  ghost predicate Asked(op: Op, current: int, steps: seq<Step>) {
    match op
    case EnsureCase(c) => Step.EnsureCase(c) in steps
    case Record(_, _, _) =>
      exists req :: Begin(req) in steps && ValidRequest(req) && RecordsFor(req, op, current, steps)
    case MarkStarted(w) => exists req :: Begin(req) in steps && ValidRequest(req) && req.workflowId == w
    case MarkCompleted(w) => Callback(w) in steps
  }

  ghost predicate AllAsked(ops: seq<Op>, current: int, steps: seq<Step>) {
    forall i :: 0 <= i < |ops| ==> Asked(ops[i], current, steps)
  }

  ghost predicate RequestBegun(r: Request, current: int, steps: seq<Step>) {
    && Begin(r.req) in steps
    && (r.pc != Answered(InvalidRequest) ==> ValidRequest(r.req))
    && (r.pc == Recording ==> WasCurrent(current, steps, r.version))
  }

  ghost predicate RequestsBegun(s: Sys, current: int, steps: seq<Step>) {
    forall id :: id in s.requests ==> RequestBegun(s.requests[id], current, steps)
  }

  ghost predicate RowsOf(s: Sys, ops: seq<Op>, current: int, steps: seq<Step>) {
    s.db == AtomicRun(EMPTY_DB, ops) && AllAsked(ops, current, steps)
  }

  ghost predicate Explained(s: Sys, current: int, steps: seq<Step>) {
    exists ops :: RowsOf(s, ops, current, steps)
  }

  // The whole operation a step runs on the rows, if it runs one.
  function StepOp(s: Sys, step: Step): Option<Op> {
    match step
    case Call(id) => if id in s.requests then CallOp(s.requests[id]) else None
    case EnsureCase(c) => Some(Op.EnsureCase(c))
    case Callback(w) => Some(MarkCompleted(w))
    case _ => None
  }

  lemma StepRunsOp(s: Sys, step: Step)
    ensures
      var s', op := Apply(s, step), StepOp(s, step);
      s'.db == s.db || (op.Some? && s'.db == Atomic(s.db, op.value))
  {
    if step.Call? && step.id in s.requests {
      CallRunsOp(s, step.id);
    }
  }

  lemma StepOpIsAsked(s: Sys, current: int, steps: seq<Step>, step: Step)
    requires RequestsBegun(s, current, steps) && StepOp(s, step).Some?
    ensures Asked(StepOp(s, step).value, current, steps + [step])
  {
    var all := steps + [step];
    assert all[|steps|] == step;
    assert forall x <- steps :: x in all;
    if step.Call? {
      var r := s.requests[step.id];
      assert RequestBegun(r, current, steps);
      assert Begin(r.req) in all;
      if r.pc == Recording {
        assert RecordsFor(r.req, StepOp(s, step).value, current, all);
      }
    }
  }

  lemma AskedStays(op: Op, current: int, steps: seq<Step>, step: Step)
    requires Asked(op, current, steps)
    ensures Asked(op, current, steps + [step])
  {
    var all := steps + [step];
    assert forall x <- steps :: x in all;
    if op.Record? {
      var req :| Begin(req) in steps && ValidRequest(req) && RecordsFor(req, op, current, steps);
      assert Begin(req) in all && RecordsFor(req, op, current, all);
    } else if op.MarkStarted? {
      var req :| Begin(req) in steps && ValidRequest(req) && req.workflowId == op.workflowId;
      assert Begin(req) in all;
    }
  }

  lemma CallKeepsBegun(s: Sys, id: RequestId, current: int, steps: seq<Step>)
    requires id in s.requests && RequestBegun(s.requests[id], current, steps) && WasCurrent(current, steps, s.current)
    ensures id in ApplyCall(s, id).requests && RequestBegun(ApplyCall(s, id).requests[id], current, steps)
  {
  }

  lemma StepKeepsBegun(s: Sys, current: int, steps: seq<Step>, step: Step)
    requires RequestsBegun(s, current, steps) && WasCurrent(current, steps, s.current)
    ensures RequestsBegun(Apply(s, step), current, steps + [step])
    ensures WasCurrent(current, steps + [step], Apply(s, step).current)
  {
    var s', all := Apply(s, step), steps + [step];
    assert all[|steps|] == step;
    assert forall x <- steps :: x in all;
    if step.Call? && step.id in s.requests {
      CallOfAnother(s, step.id);
      CallKeepsBegun(s, step.id, current, steps);
    }
    forall id | id in s'.requests
      ensures RequestBegun(s'.requests[id], current, all)
    {
      assert id in s.requests ==> RequestBegun(s.requests[id], current, steps);
    }
  }

  lemma {:induction false} ExecIsBegun(catalog: map<DefinitionKey, Definition>, current: int, steps: seq<Step>)
    ensures RequestsBegun(Exec(Init(catalog, current), steps), current, steps)
    ensures WasCurrent(current, steps, Exec(Init(catalog, current), steps).current)
  {
    if steps != [] {
      var before, last := steps[..|steps| - 1], steps[|steps| - 1];
      ExecIsBegun(catalog, current, before);
      assert steps == before + [last];
      StepKeepsBegun(Exec(Init(catalog, current), before), current, before, last);
    }
  }

  // The rows of every execution are those of a run of whole operations that were asked for: a flow is recorded only
  // as a valid request had it, with that request's variables, owner and case info, on a version that was current.
  lemma {:induction false} RowsComeFromRequests(
    catalog: map<DefinitionKey, Definition>, current: int, steps: seq<Step>)
    ensures Explained(Exec(Init(catalog, current), steps), current, steps)
  {
    if steps == [] {
      assert RowsOf(Init(catalog, current), [], current, []);
    } else {
      var before, last := steps[..|steps| - 1], steps[|steps| - 1];
      RowsComeFromRequests(catalog, current, before);
      ExecIsBegun(catalog, current, before);
      var s := Exec(Init(catalog, current), before);
      RowsOfNext(s, current, before, last);
      assert steps == before + [last];
      assert Exec(Init(catalog, current), steps) == Apply(s, last);
    }
  }

  lemma RowsOfNext(s: Sys, current: int, steps: seq<Step>, step: Step)
    requires RequestsBegun(s, current, steps)
    requires Explained(s, current, steps)
    ensures Explained(Apply(s, step), current, steps + [step])
  {
    var ops :| RowsOf(s, ops, current, steps);
    StepRunsOp(s, step);
    forall i | 0 <= i < |ops|
      ensures Asked(ops[i], current, steps + [step])
    {
      AskedStays(ops[i], current, steps, step);
    }
    if Apply(s, step).db == s.db {
      assert RowsOf(Apply(s, step), ops, current, steps + [step]);
    } else {
      var op := StepOp(s, step).value;
      StepOpIsAsked(s, current, steps, step);
      assert (ops + [op])[..|ops|] == ops;
      assert RowsOf(Apply(s, step), ops + [op], current, steps + [step]);
    }
  }

  // An insert that won is one of the operations.
  lemma {:induction false} InsertIsAnOperation(ops: seq<Op>, i: nat)
    requires i < |CaseHistory.Inserts(ops)|
    ensures
      var ins := CaseHistory.Inserts(ops)[i];
      exists j :: 0 <= j < |ops| && ops[j] == Record(ins.flow, ins.owner, ins.info)
  {
    var before := ops[..|ops| - 1];
    if i < |CaseHistory.Inserts(before)| {
      InsertIsAnOperation(before, i);
      var ins := CaseHistory.Inserts(ops)[i];
      var j :| 0 <= j < |before| && before[j] == Record(ins.flow, ins.owner, ins.info);
      assert ops[j] == before[j];
    } else {
      assert ops[|ops| - 1].Record?;
    }
  }

  // req was begun, and the row holds its details, its variables and a version that was current.
  ghost predicate RowIsFor(row: FlowRow, req: StartRequest, current: int, steps: seq<Step>) {
    && Begin(req) in steps && ValidRequest(req)
    && row.caseId == req.caseId && row.templateId == req.templateId && row.payload == req.vars
    && WasCurrent(current, steps, row.manifestVersion)
  }

  lemma RowIsOfARequest(
    catalog: map<DefinitionKey, Definition>, current: int, steps: seq<Step>, w: WorkflowId)
    requires w in Exec(Init(catalog, current), steps).db.flows
    ensures exists req: StartRequest ::
      req.workflowId == w && RowIsFor(Exec(Init(catalog, current), steps).db.flows[w], req, current, steps)
  {
    var s := Exec(Init(catalog, current), steps);
    RowsComeFromRequests(catalog, current, steps);
    var ops :| RowsOf(s, ops, current, steps);
    var ins := CaseHistory.Inserts(ops);
    CaseHistory.RowsFoldInserts(ops);
    var i :| 0 <= i < |ins| && ins[i].flow.workflowId == w;
    InsertIsAnOperation(ops, i);
    var j :| 0 <= j < |ops| && ops[j] == Record(ins[i].flow, ins[i].owner, ins[i].info);
    assert Asked(ops[j], current, steps);
    var req :| Begin(req) in steps && ValidRequest(req) && RecordsFor(req, ops[j], current, steps);
    assert RowIsFor(s.db.flows[w], req, current, steps);
  }

  // Every engine start runs the template some request asked for, on a version that was current, with that request's
  // variables and its case, however many requests, crashes and deploys came between.
  lemma StartsCarryARequest(catalog: map<DefinitionKey, Definition>, current: int, steps: seq<Step>, i: nat)
    requires i < |Exec(Init(catalog, current), steps).starts|
    ensures
      var start := Exec(Init(catalog, current), steps).starts[i];
      exists req: StartRequest, version: int ::
        req.workflowId == start.workflowId && StartIsFor(start, req, version, catalog, current, steps)
  {
    var init := Init(catalog, current);
    var s := Exec(init, steps);
    var w := s.starts[i].workflowId;
    assert Reachable(s);
    StartsAgree(s, i, i);
    ExecIsLater(init, steps);
    RowIsOfARequest(catalog, current, steps, w);
    var req: StartRequest :| req.workflowId == w && RowIsFor(s.db.flows[w], req, current, steps);
    assert StartIsFor(s.starts[i], req, s.db.flows[w].manifestVersion, catalog, current, steps);
  }

  ghost predicate StartIsFor(
    start: Start, req: StartRequest, version: int,
    catalog: map<DefinitionKey, Definition>, current: int, steps: seq<Step>)
  {
    && Begin(req) in steps && WasCurrent(current, steps, version)
    && DefinitionKey(version, req.templateId) in catalog && start.def == catalog[DefinitionKey(version, req.templateId)]
    && VAR_CASE_ID in start.vars && start.vars[VAR_CASE_ID] == CaseValue(req.caseId)
    && VAR_MANIFEST_VERSION in start.vars && start.vars[VAR_MANIFEST_VERSION] == VersionValue(version)
    && forall k :: k !in {VAR_CASE_ID, VAR_MANIFEST_VERSION} ==>
         if req.vars.Some? && k in req.vars.value then k in start.vars && start.vars[k] == Given(req.vars.value[k])
         else k !in start.vars
  }
}
