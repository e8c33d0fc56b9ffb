/**
StartFlow, resume, start and CompletionHandler of internal/caseflow/service.go as one caller runs them,
on the Repository and the engine. Any of the calls they make may fail.
*/
module FlowService {
  import opened Wrappers
  import opened CaseRows
  import opened FlowStart
  import CaseRepository
  import CaseHistory

  datatype EngineStart = EngineStart(workflowId: WorkflowId, def: Definition, vars: map<string, VarValue>)

  // The calls of one StartFlow.
  datatype FlowCall = GetFirst | RecordFlow | GetRecorded | StartRun | MarkStart

  datatype StartError = InvalidStart | TemplateUnknown | RecordedOtherwise | CallFailed

  const WORKFLOW_ID_SEP := ":"

  class Engine {
    var running: set<WorkflowId>
    var runs: multiset<WorkflowId>
    var starts: seq<EngineStart>

    constructor ()
      ensures running == {} && runs == multiset{} && starts == []
    {
      running, runs, starts := {}, multiset{}, [];
    }

    // Attaches to a running ID, and takes any other as a new run.
    method StartWorkflow(w: WorkflowId, def: Definition, vars: map<string, VarValue>)
      modifies this
      ensures starts == old(starts) + [EngineStart(w, def, vars)]
      ensures running == old(running) + {w}
      ensures runs == if w in old(running) then old(runs) else old(runs) + multiset{w}
    {
      starts := starts + [EngineStart(w, def, vars)];
      if w !in running {
        running := running + {w};
        runs := runs + multiset{w};
      }
    }
  }

  class Service {
    const repo: CaseRepository.Repository
    const engine: Engine
    const catalog: map<DefinitionKey, Definition>
    var current: int

    constructor (repo: CaseRepository.Repository, catalog: map<DefinitionKey, Definition>, current: int)
      ensures this.repo == repo && fresh(engine) && this.catalog == catalog && this.current == current
    {
      this.repo := repo;
      this.catalog := catalog;
      this.current := current;
      engine := new Engine();
    }

    ghost predicate Loads(row: FlowRow) {
      DefinitionKey(row.manifestVersion, row.templateId) in catalog
    }

    // The one start a row may cause, which is the only way StartFlow reaches the engine.
    ghost function StartOf(w: WorkflowId, row: FlowRow): EngineStart
      requires Loads(row)
    {
      EngineStart(w, catalog[DefinitionKey(row.manifestVersion, row.templateId)], StartVars(row))
    }

    // start, with the variables seeded from the recorded row and then two of its own set over them.
    method Start(w: WorkflowId, row: FlowRow, def: Definition)
      requires Loads(row) && def == catalog[DefinitionKey(row.manifestVersion, row.templateId)]
      modifies engine
      ensures engine.starts == old(engine.starts) + [StartOf(w, row)]
      ensures VarsAreOf(engine.starts[|old(engine.starts)|].vars, row)
      ensures engine.running == old(engine.running) + {w}
      ensures engine.runs == if w in old(engine.running) then old(engine.runs) else old(engine.runs) + multiset{w}
    {
      var vars: map<string, VarValue> := map[];
      if row.payload.Some? {
        var recorded := row.payload.value;
        vars := map k | k in recorded :: Given(recorded[k]);
      }
      vars := vars[VAR_CASE_ID := CaseValue(row.caseId)];
      vars := vars[VAR_MANIFEST_VERSION := VersionValue(row.manifestVersion)];
      assert vars == StartVars(row);
      StartVarsAre(row);
      engine.StartWorkflow(w, def, vars);
    }

    // Whether resume, on this row, reaches the engine.
    ghost predicate Resumes(req: StartRequest, row: FlowRow, faults: set<FlowCall>) {
      Agrees(req, row) && row.status == Starting && Loads(row) && StartRun !in faults
    }

    // What resume answers: the started flow, a row it refuses, or why it could not start it.
    ghost function ResumeAnswer(req: StartRequest, row: FlowRow, faults: set<FlowCall>): Result<FlowRow, StartError> {
      if !Agrees(req, row) then Err(RecordedOtherwise)
      else if row.status != Starting then Ok(row)
      else if !Loads(row) then Err(TemplateUnknown)
      else if StartRun in faults || MarkStart in faults then Err(CallFailed)
      else Ok(row.(status := Started))
    }

    // What resume leaves of these rows, starts and running workflows: a row it may resume is started as it was
    // recorded, and marked only once the engine has it; nothing else changes.
    ghost predicate Resumed(
      req: StartRequest, row: FlowRow, faults: set<FlowCall>,
      db: Db, starts: seq<EngineStart>, running: set<WorkflowId>, r: Result<FlowRow, StartError>)
      reads repo, engine
    {
      && r == ResumeAnswer(req, row, faults)
      && if Resumes(req, row, faults) then
           && engine.starts == starts + [StartOf(req.workflowId, row)]
           && engine.running == running + {req.workflowId}
           && repo.db == if MarkStart in faults then db else AtomicMarkStarted(db, req.workflowId)
         else
           engine.starts == starts && engine.running == running && repo.db == db
    }

    predicate SameDetails(request: StartRequest, row: FlowRow) {
      row.caseId == request.caseId && row.templateId == request.templateId
    }

    ghost predicate RecordedAsAsked(before: Db, after: Db, w: WorkflowId, request: StartRequest)
      reads this
    {
      w in after.flows && w !in before.flows ==>
        && after.flows[w].caseId == request.caseId && after.flows[w].templateId == request.templateId
        && after.flows[w].manifestVersion == current && after.flows[w].payload == request.vars
        && Accompanied(before, after, request)
    }

    ghost predicate StartsTheRow(before: seq<EngineStart>, after: seq<EngineStart>, db: Db, w: WorkflowId) {
      after != before ==>
        && |after| == |before| + 1 && after[..|before|] == before
        && w in db.flows && Loads(db.flows[w])
        && var start, row := after[|before|], db.flows[w];
           && start.workflowId == w && VarsAreOf(start.vars, row)
           && start.def == catalog[DefinitionKey(row.manifestVersion, row.templateId)]
    }

    // The case of a request's flow, just recorded, with the owner and the case info that came with it.
    ghost predicate Accompanied(before: Db, after: Db, request: StartRequest) {
      && request.caseId in after.cases && after.cases[request.caseId].state == InProgress
      && (request.owner.Some? ==>
            var k := PartyKey(request.caseId, request.owner.value.role);
            k in after.parties && after.parties[k] == request.owner.value.ouHandle)
      && (request.info.Some? ==>
            forall k :: k in request.info.value.attributes ==>
              && k in after.cases[request.caseId].attributes
              && after.cases[request.caseId].attributes[k] == request.info.value.attributes[k])
      && (request.info.Some? && request.info.value.name != "" ==>
            after.cases[request.caseId].name == Some(request.info.value.name))
      && (forall c :: c in before.cases && c != request.caseId ==>
            c in after.cases && after.cases[c] == before.cases[c])
    }

    // resume, on the row just read; preloaded is its definition if the caller has loaded it.
    method Resume(req: StartRequest, row: FlowRow, preloaded: Option<Definition>, faults: set<FlowCall>)
      returns (r: Result<FlowRow, StartError>)
      requires req.workflowId in repo.db.flows && repo.db.flows[req.workflowId] == row
      requires preloaded.Some? ==>
        && DefinitionKey(row.manifestVersion, req.templateId) in catalog
        && preloaded.value == catalog[DefinitionKey(row.manifestVersion, req.templateId)]
      modifies repo, engine
      ensures Resumed(req, row, faults, old(repo.db), old(engine.starts), old(engine.running), r)
      ensures CaseHistory.Forward(old(repo.db), repo.db)
      ensures StartsTheRow(old(engine.starts), engine.starts, repo.db, req.workflowId)
      ensures RecordedAsAsked(old(repo.db), repo.db, req.workflowId, req)
      ensures r.Ok? ==> Agrees(req, row) && r.value == repo.db.flows[req.workflowId] && r.value.status != Starting
    {
      if !Agrees(req, row) {
        return Err(RecordedOtherwise);
      }
      if row.status != Starting {
        return Ok(row);
      }
      var key := DefinitionKey(row.manifestVersion, row.templateId);
      var def := preloaded;
      if def.None? {
        if key !in catalog {
          return Err(TemplateUnknown);
        }
        def := Some(catalog[key]);
      }
      if StartRun in faults {
        return Err(CallFailed);
      }
      Start(req.workflowId, row, def.value);
      if MarkStart in faults {
        return Err(CallFailed);
      }
      CaseHistory.AtomicMovesForward(repo.db, MarkStarted(req.workflowId));
      var marked := repo.MarkStarted(req.workflowId);
      return Ok(row.(status := Started));
    }

    // StartFlow from where a first request goes on: it loads the definition, records the flow and resumes what is
    // then recorded.
    method RecordAndResume(req: StartRequest, faults: set<FlowCall>) returns (r: Result<FlowRow, StartError>)
      requires ValidRequest(req)
      modifies repo, engine
      ensures CaseHistory.Forward(old(repo.db), repo.db)
      ensures StartsTheRow(old(engine.starts), engine.starts, repo.db, req.workflowId)
      ensures RecordedAsAsked(old(repo.db), repo.db, req.workflowId, req)
      ensures
        var recorded := DefinitionKey(current, req.templateId) in catalog && RecordFlow !in faults;
        var db :=
          if recorded then AtomicRecord(old(repo.db), NewRow(req, current), req.owner, req.info) else old(repo.db);
        if recorded && GetRecorded !in faults then
          && req.workflowId in db.flows
          && Resumed(req, db.flows[req.workflowId], faults, db, old(engine.starts), old(engine.running), r)
        else
          && engine.starts == old(engine.starts) && engine.running == old(engine.running) && repo.db == db
          && r == Err(if DefinitionKey(current, req.templateId) !in catalog then TemplateUnknown else CallFailed)
    {
      var version := current;
      var key := DefinitionKey(version, req.templateId);
      if key !in catalog {
        return Err(TemplateUnknown);
      }
      var def := catalog[key];
      var failed := repo.Record(NewRow(req, version), req.owner, req.info,
                                if RecordFlow in faults then {CaseRepository.InsertFlow} else {});
      CaseHistory.AtomicMovesForward(old(repo.db), Record(NewRow(req, version), req.owner, req.info));
      if failed {
        return Err(CallFailed);
      }
      if GetRecorded in faults {
        return Err(CallFailed);
      }
      var row := repo.Get(req.workflowId);
      // A concurrent request may have recorded the row first, on another version.
      var preloaded := if row.value.manifestVersion != version then None else Some(def);
      r := Resume(req, row.value, preloaded, faults);
      return r;
    }

    // Whether StartFlow gets as far as recording req's flow for the first time.
    ghost predicate Records(db: Db, req: StartRequest, named: bool, faults: set<FlowCall>)
      reads this
    {
      && ValidRequest(req) && req.workflowId !in db.flows
      && (named ==> GetFirst !in faults)
      && DefinitionKey(current, req.templateId) in catalog
      && RecordFlow !in faults
    }

    // The rows once it has: the flow as requested, on the current version, with the owner and case info given.
    ghost function RecordedDb(db: Db, req: StartRequest, named: bool, faults: set<FlowCall>): Db
      reads this
    {
      if Records(db, req, named, faults) then AtomicRecord(db, NewRow(req, current), req.owner, req.info) else db
    }

    // Whether StartFlow gets as far as reading a recorded flow, to resume it: one it was asked for by its name, or
    // the one it has just recorded.
    ghost predicate Reads(db: Db, req: StartRequest, named: bool, faults: set<FlowCall>)
      reads this
    {
      && ValidRequest(req)
      && (named ==> GetFirst !in faults)
      && if named && req.workflowId in db.flows then true
         else DefinitionKey(current, req.templateId) in catalog && RecordFlow !in faults && GetRecorded !in faults
    }

    method StartFlow(request: StartRequest, unique: string, faults: set<FlowCall>)
      returns (r: Result<FlowRow, StartError>, ghost w: WorkflowId)
      modifies repo, engine
      ensures w ==
        if request.workflowId != "" then request.workflowId
        else request.caseId + ":" + request.templateId + ":" + unique
      ensures CaseHistory.Forward(old(repo.db), repo.db)
      // The flow is recorded exactly as requested when it gets that far, whatever call fails after it; a flow
      // already recorded stays, and the row is marked only once the engine has it.
      ensures
        var req, named := request.(workflowId := w), request.workflowId != "";
        var db := old(RecordedDb(repo.db, req, named, faults));
        if old(Reads(repo.db, req, named, faults)) then
          w in db.flows && Resumed(req, db.flows[w], faults, db, old(engine.starts), old(engine.running), r)
        else
          engine.starts == old(engine.starts) && engine.running == old(engine.running) && repo.db == db && r.Err?
      // A repeat with other details, or of a flow that has started, changes no row and never reaches the engine.
      ensures
        && w in old(repo.db).flows
        && (!SameDetails(request, old(repo.db).flows[w]) || old(repo.db).flows[w].status != Starting)
        ==> repo.db == old(repo.db) && engine.starts == old(engine.starts)
      ensures w in old(repo.db).flows && !SameDetails(request, old(repo.db).flows[w]) ==> r.Err?
      // A flow it records holds what was asked for, on the version current now, and its case what goes with it.
      ensures RecordedAsAsked(old(repo.db), repo.db, w, request.(workflowId := w))
      // What it takes to the engine is that row's definition, with the row's own variables.
      ensures StartsTheRow(old(engine.starts), engine.starts, repo.db, w)
      // What it returns is the started flow, which this call or one before it took to the engine.
      ensures r.Ok? ==>
        && w in repo.db.flows && r.value == repo.db.flows[w] && r.value.status != Starting
        && SameDetails(request, r.value)
      ensures r.Ok? && (w in old(repo.db).flows ==> old(repo.db).flows[w].status == Starting) ==>
        |engine.starts| == |old(engine.starts)| + 1 && w in engine.running
      // A request it refuses, or for a template it does not know, leaves no rows.
      ensures r == Err(InvalidStart) <==> request.caseId == "" || request.templateId == "" || '/' in w
      ensures r.Err? && r.error in {InvalidStart, TemplateUnknown} ==>
        repo.db == old(repo.db) && engine.starts == old(engine.starts)
      // With every call succeeding and the template at hand, it returns the started flow.
      ensures
        && faults == {} && ValidRequest(request.(workflowId := w))
        && (w in old(repo.db).flows ==>
              && request.workflowId != "" && Agrees(request, old(repo.db).flows[w])
              && Loads(old(repo.db).flows[w]))
        && (w !in old(repo.db).flows ==> DefinitionKey(current, request.templateId) in catalog)
        ==> r.Ok?
    {
      var workflowId := request.workflowId;
      if workflowId == "" {
        workflowId := FlowWorkflowId(request.caseId, request.templateId, unique);
      }
      w := workflowId;
      var req := request.(workflowId := workflowId);
      if !ValidRequest(req) {
        return Err(InvalidStart), w;
      }
      if request.workflowId != "" {
        if GetFirst in faults {
          return Err(CallFailed), w;
        }
        var found := repo.Get(workflowId);
        if found.Ok? {
          r := Resume(req, found.value, None, faults);
          return r, w;
        }
      }
      r := RecordAndResume(req, faults);
      return r, w;
    }

    // CompletionHandler: false is the error that makes the engine call it again.
    method CompletionHandler(w: WorkflowId) returns (ok: bool)
      requires forall v :: v in repo.db.flows ==> repo.db.flows[v].caseId in repo.db.cases
      modifies repo
      ensures ok == (w in old(repo.db).flows)
      ensures repo.db == AtomicMarkCompleted(old(repo.db), w)
      ensures ok ==> repo.db.flows[w].status == Completed
      ensures !ok ==> repo.db == old(repo.db)
    {
      ok := repo.MarkCompleted(w);
    }
  }

  function FlowWorkflowId(caseId: CaseId, templateId: string, suffix: string): WorkflowId {
    caseId + WORKFLOW_ID_SEP + templateId + WORKFLOW_ID_SEP + suffix
  }
}
