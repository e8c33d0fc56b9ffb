/**
The rows internal/caseflow keeps (cases, case_flows and the case_parties it writes) and what each of
its transactions does to them when it runs alone. These functions are the specification: the
statement-level machine in CaseLocks refines them, and the Repository class meets them.
*/
module CaseRows {
  import opened Wrappers

  type CaseId = string
  type WorkflowId = string
  type Role = string
  // One encoded JSON value. Its inside is never read here.
  type Json = string

  datatype CaseState = InProgress | Finished

  datatype Status = Starting | Started | Completed

  datatype CaseRow = CaseRow(name: Option<string>, state: CaseState, attributes: map<string, Json>)

  datatype FlowRow = FlowRow(
    caseId: CaseId, templateId: string, manifestVersion: int, status: Status, payload: Option<map<string, Json>>)

  datatype PartyKey = PartyKey(caseId: CaseId, role: Role)

  // parties maps a role on a case to the OU handle that holds it.
  datatype Db = Db(cases: map<CaseId, CaseRow>, flows: map<WorkflowId, FlowRow>, parties: map<PartyKey, string>)

  datatype Owner = Owner(role: Role, ouHandle: string)

  datatype CaseInfo = CaseInfo(attributes: map<string, Json>, name: string)

  // What Record is asked to insert; a new row's status is always Starting.
  datatype NewFlow = NewFlow(
    workflowId: WorkflowId, caseId: CaseId, templateId: string, manifestVersion: int, payload: Option<map<string, Json>>)

  datatype Op =
    | EnsureCase(caseId: CaseId)
    | Record(flow: NewFlow, owner: Option<Owner>, info: Option<CaseInfo>)
    | MarkStarted(workflowId: WorkflowId)
    | MarkCompleted(workflowId: WorkflowId)

  const EMPTY_DB := Db(map[], map[], map[])

  const NEW_CASE := CaseRow(None, InProgress, map[])

  function StartingRow(f: NewFlow): FlowRow {
    FlowRow(f.caseId, f.templateId, f.manifestVersion, Starting, f.payload)
  }

  // mergeCaseInfo: attributes merged by top-level key, and the name when it is not empty.
  function MergeInfo(row: CaseRow, info: Option<CaseInfo>): CaseRow {
    match info
    case None => row
    case Some(i) =>
      row.(attributes := row.attributes + i.attributes, name := if i.name == "" then row.name else Some(i.name))
  }

  predicate AllCompleted(db: Db, c: CaseId) {
    forall w :: w in db.flows && db.flows[w].caseId == c ==> db.flows[w].status == Completed
  }

  predicate HasFlow(db: Db, c: CaseId) {
    exists w :: w in db.flows && db.flows[w].caseId == c
  }

  function CaseOrNew(db: Db, c: CaseId): CaseRow {
    if c in db.cases then db.cases[c] else NEW_CASE
  }

  function AtomicRecord(db: Db, f: NewFlow, owner: Option<Owner>, info: Option<CaseInfo>): Db {
    if f.workflowId in db.flows then
      db
    else
      var row := MergeInfo(CaseOrNew(db, f.caseId).(state := InProgress), info);
      Db(
        db.cases[f.caseId := row],
        db.flows[f.workflowId := StartingRow(f)],
        if owner.None? then db.parties
        else db.parties[PartyKey(f.caseId, owner.value.role) := owner.value.ouHandle])
  }

  function AtomicMarkStarted(db: Db, w: WorkflowId): Db {
    if w in db.flows && db.flows[w].status == Starting then
      db.(flows := db.flows[w := db.flows[w].(status := Started)])
    else
      db
  }

  function AtomicMarkCompleted(db: Db, w: WorkflowId): Db {
    if w !in db.flows then
      db
    else
      var c := db.flows[w].caseId;
      var done := db.(flows := db.flows[w := db.flows[w].(status := Completed)]);
      if c in db.cases && AllCompleted(done, c) then
        done.(cases := db.cases[c := db.cases[c].(state := Finished)])
      else
        done
  }

  function Atomic(db: Db, op: Op): Db {
    match op
    case EnsureCase(c) => if c in db.cases then db else db.(cases := db.cases[c := NEW_CASE])
    case Record(f, owner, info) => AtomicRecord(db, f, owner, info)
    case MarkStarted(w) => AtomicMarkStarted(db, w)
    case MarkCompleted(w) => AtomicMarkCompleted(db, w)
  }

  function AtomicRun(db: Db, ops: seq<Op>): Db {
    if ops == [] then db else Atomic(AtomicRun(db, ops[..|ops| - 1]), ops[|ops| - 1])
  }
}
