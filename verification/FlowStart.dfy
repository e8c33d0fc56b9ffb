/**
StartFlow against the engine, one call at a time: any number of requests, each between two of its calls,
with deploys, completion callbacks and run ends in between. A request may be lost at any point, and every
call on the rows is one of the whole transactions of CaseRows.
*/
module FlowStart {
  import opened Wrappers
  import opened CaseRows

  type RequestId = nat
  type Definition = string

  datatype DefinitionKey = DefinitionKey(version: int, templateId: string)

  // The names core gives the two variables every start sets; only that they differ matters here.
  const VAR_CASE_ID := "caseId"
  const VAR_MANIFEST_VERSION := "manifestVersion"

  datatype VarValue = Given(json: Json) | CaseValue(caseId: CaseId) | VersionValue(version: int)

  // chosen says the caller named workflowId; otherwise it is the one StartFlow built.
  datatype StartRequest = StartRequest(
    caseId: CaseId, templateId: string, workflowId: WorkflowId, chosen: bool,
    vars: Option<map<string, Json>>, owner: Option<Owner>, info: Option<CaseInfo>)

  datatype Outcome = Returned(row: FlowRow) | Conflict | UnknownTemplate | InvalidRequest

  // The next call of a request.
  datatype Pc =
    | Lookup | LoadCurrent | Recording | Reread | LoadRecorded | StartEngine | ConfirmStart
    | Answered(outcome: Outcome)

  // version and def are what LoadCurrent loaded; row is the flow row the request last read.
  datatype Request = Request(req: StartRequest, pc: Pc, version: int, def: Option<Definition>, row: Option<FlowRow>)

  // One StartWorkflow call.
  datatype Start = Start(request: RequestId, workflowId: WorkflowId, def: Definition, vars: map<string, VarValue>)

  // catalog holds every (version, template) that loads. running are the workflow IDs with a live run, acked
  // those of them whose completion callback has returned, runs every run the engine ever began.
  datatype Sys = Sys(
    db: Db, catalog: map<DefinitionKey, Definition>, current: int,
    next: RequestId, requests: map<RequestId, Request>,
    running: set<WorkflowId>, acked: set<WorkflowId>, runs: multiset<WorkflowId>, starts: seq<Start>)

  datatype Step =
    | Begin(req: StartRequest)
    | Call(id: RequestId)
    | Lose(id: RequestId)
    | EnsureCase(caseId: CaseId)
    | Deploy(version: int)
    | Callback(workflowId: WorkflowId)
    | EndRun(workflowId: WorkflowId)

  predicate ValidRequest(req: StartRequest) {
    req.caseId != "" && req.templateId != "" && '/' !in req.workflowId
  }

  function NewRow(req: StartRequest, version: int): NewFlow {
    NewFlow(req.workflowId, req.caseId, req.templateId, version, req.vars)
  }

  // start seeds the variables from the recorded row and then sets the two of its own.
  function StartVars(row: FlowRow): map<string, VarValue> {
    var recorded := if row.payload.Some? then row.payload.value else map[];
    (map k | k in recorded :: Given(recorded[k]))
      [VAR_CASE_ID := CaseValue(row.caseId)]
      [VAR_MANIFEST_VERSION := VersionValue(row.manifestVersion)]
  }

  // The variables of a start of row: its case, its version, and for any other name what was recorded.
  ghost predicate VarsAreOf(vars: map<string, VarValue>, row: FlowRow) {
    && VAR_CASE_ID in vars && vars[VAR_CASE_ID] == CaseValue(row.caseId)
    && VAR_MANIFEST_VERSION in vars && vars[VAR_MANIFEST_VERSION] == VersionValue(row.manifestVersion)
    && (forall k :: k !in {VAR_CASE_ID, VAR_MANIFEST_VERSION} ==>
          (k in vars <==> row.payload.Some? && k in row.payload.value))
    && (forall k :: k in vars && k !in {VAR_CASE_ID, VAR_MANIFEST_VERSION} ==>
          row.payload.Some? && k in row.payload.value && vars[k] == Given(row.payload.value[k]))
  }

  lemma StartVarsAre(row: FlowRow)
    ensures VarsAreOf(StartVars(row), row)
  {
  }

  predicate Agrees(req: StartRequest, row: FlowRow) {
    row.caseId == req.caseId && row.templateId == req.templateId
  }

  // resume: what a request does next with the row it read.
  function Resume(r: Request, row: FlowRow, def: Option<Definition>): Request {
    var pc :=
      if !Agrees(r.req, row) then Answered(Conflict)
      else if row.status != Starting then Answered(Returned(row))
      else if def.None? then LoadRecorded
      else StartEngine;
    r.(pc := pc, def := def, row := Some(row))
  }

  function Advance(s: Sys, id: RequestId, r: Request): Sys {
    s.(requests := s.requests[id := r])
  }

  // One call of request id, which succeeds.
  function ApplyCall(s: Sys, id: RequestId): Sys
    requires id in s.requests
  {
    var r := s.requests[id];
    var w := r.req.workflowId;
    match r.pc
    case Lookup =>
      if w in s.db.flows then Advance(s, id, Resume(r, s.db.flows[w], None)) else Advance(s, id, r.(pc := LoadCurrent))
    case LoadCurrent =>
      var k := DefinitionKey(s.current, r.req.templateId);
      if k in s.catalog then
        Advance(s, id, r.(pc := Recording, version := s.current, def := Some(s.catalog[k])))
      else
        Advance(s, id, r.(pc := Answered(UnknownTemplate), version := s.current))
    case Recording =>
      Advance(s, id, r.(pc := Reread)).(db := AtomicRecord(s.db, NewRow(r.req, r.version), r.req.owner, r.req.info))
    case Reread =>
      if w in s.db.flows then
        var row := s.db.flows[w];
        Advance(s, id, Resume(r, row, if row.manifestVersion == r.version then r.def else None))
      else
        s
    case LoadRecorded =>
      if r.row.None? then s
      else
        var k := DefinitionKey(r.row.value.manifestVersion, r.row.value.templateId);
        if k in s.catalog then Advance(s, id, r.(pc := StartEngine, def := Some(s.catalog[k])))
        else Advance(s, id, r.(pc := Answered(UnknownTemplate)))
    case StartEngine =>
      if r.row.None? || r.def.None? then s
      else
        // The engine attaches to a running ID, and takes any other as a new run.
        Advance(s, id, r.(pc := ConfirmStart)).(
          starts := s.starts + [Start(id, w, r.def.value, StartVars(r.row.value))],
          running := s.running + {w},
          runs := if w in s.running then s.runs else s.runs + multiset{w})
    case ConfirmStart =>
      if r.row.None? || w !in s.db.flows then s
      else
        Advance(s, id, r.(pc := Answered(Returned(r.row.value.(status := Started))))).(db := AtomicMarkStarted(s.db, w))
    case Answered(_) => s
  }

  // A step that cannot be taken changes nothing.
  function Apply(s: Sys, step: Step): Sys {
    match step
    case Begin(req) =>
      var pc :=
        if !ValidRequest(req) then Answered(InvalidRequest) else if req.chosen then Lookup else LoadCurrent;
      s.(next := s.next + 1, requests := s.requests[s.next := Request(req, pc, 0, None, None)])
    case Call(id) => if id in s.requests then ApplyCall(s, id) else s
    case Lose(id) => s.(requests := s.requests - {id})
    case EnsureCase(c) => s.(db := Atomic(s.db, Op.EnsureCase(c)))
    case Deploy(v) => s.(current := v)
    case Callback(w) =>
      // A completion that names no recorded flow is an error, and is called again.
      if w in s.running && w in s.db.flows then s.(db := AtomicMarkCompleted(s.db, w), acked := s.acked + {w}) else s
    case EndRun(w) =>
      if w in s.running && w in s.acked then s.(running := s.running - {w}, acked := s.acked - {w}) else s
  }

  function Exec(s: Sys, steps: seq<Step>): Sys {
    if steps == [] then s else Apply(Exec(s, steps[..|steps| - 1]), steps[|steps| - 1])
  }

  function Init(catalog: map<DefinitionKey, Definition>, current: int): Sys {
    Sys(EMPTY_DB, catalog, current, 0, map[], {}, {}, multiset{}, [])
  }
}
