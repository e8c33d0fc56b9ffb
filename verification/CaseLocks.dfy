/**
internal/caseflow/repository.go one SQL statement at a time. A transaction is a program counter with its
uncommitted writes and the row locks it holds; a statement sees the committed rows plus its own, waits
while another transaction holds a conflicting lock, and may be rolled back at any point.
*/
module CaseLocks {
  import opened Wrappers
  import opened CaseRows

  type TxnId = nat

  // The row locks taken on a case: FOR KEY SHARE by a foreign key check, FOR NO KEY UPDATE by an UPDATE
  // of its non-key columns, FOR UPDATE by MarkCompleted's SELECT.
  datatype CaseLock = KeyShare | NoKeyUpdate | ForUpdate

  // The conflict table of Postgres's row locks.
  predicate Conflict(m: CaseLock, n: CaseLock) {
    match m
    case KeyShare => n == ForUpdate
    case NoKeyUpdate => n != KeyShare
    case ForUpdate => true
  }

  // The next statement of a transaction.
  datatype Pc =
    | InsertCase | InsertFlow | CheckForeignKey | Reopen | MergeCaseInfo | UpsertOwner | DropCase
    | UpdateStarted
    | ReadFlow | LockCase | CompleteFlow | FinishCase
    | Committing

  // caseWrite, flowWrite and partyWrite are the transaction's own version of the one row of each table it
  // wrote; a flow or party row it wrote is locked by it until it ends. insertedCase says it inserted its
  // case's row, and so holds that key. missed says its workflow ID named no committed flow.
  datatype Txn = Txn(
    op: Op, pc: Pc, caseId: CaseId, caseLocks: set<CaseLock>, insertedCase: bool,
    caseWrite: Option<CaseRow>, flowWrite: Option<FlowRow>, partyWrite: Option<string>, missed: bool)

  datatype Sys = Sys(db: Db, txns: map<TxnId, Txn>)

  datatype Step = Begin(id: TxnId, op: Op) | Advance(id: TxnId) | Rollback(id: TxnId)

  const INIT := Sys(EMPTY_DB, map[])

  function Opened(op: Op): Txn {
    var pc := match op
      case EnsureCase(_) => InsertCase
      case Record(_, _, _) => InsertCase
      case MarkStarted(_) => UpdateStarted
      case MarkCompleted(_) => ReadFlow;
    var c := match op
      case EnsureCase(c) => c
      case Record(f, _, _) => f.caseId
      case _ => "";
    Txn(op, pc, c, {}, false, None, None, None, false)
  }

  // ---- Who holds what ----

  predicate HoldsCaseKey(t: Txn, c: CaseId) {
    t.insertedCase && t.caseId == c
  }

  predicate NamesFlow(op: Op, w: WorkflowId) {
    match op
    case EnsureCase(_) => false
    case Record(f, _, _) => f.workflowId == w
    case MarkStarted(v) => v == w
    case MarkCompleted(v) => v == w
  }

  predicate HoldsFlow(t: Txn, w: WorkflowId) {
    t.flowWrite.Some? && NamesFlow(t.op, w)
  }

  predicate HoldsParty(t: Txn, k: PartyKey) {
    t.partyWrite.Some? && t.op.Record? && t.op.owner.Some? && PartyKey(t.caseId, t.op.owner.value.role) == k
  }

  predicate Denies(h: Txn, c: CaseId, m: CaseLock) {
    h.caseId == c && exists n :: n in h.caseLocks && Conflict(m, n)
  }

  // The case row t sees: its own version, else the committed one.
  function CaseView(db: Db, t: Txn): CaseRow {
    if t.caseWrite.Some? then t.caseWrite.value else CaseOrNew(db, t.caseId)
  }

  // Whether t's next statement must wait for h, another transaction.
  predicate Blocks(db: Db, t: Txn, h: Txn) {
    match t.pc
    case InsertCase => t.caseId !in db.cases && HoldsCaseKey(h, t.caseId)
    case InsertFlow => t.op.Record? && t.op.flow.workflowId !in db.flows && HoldsFlow(h, t.op.flow.workflowId)
    case CheckForeignKey => Denies(h, t.caseId, KeyShare)
    case Reopen => CaseView(db, t).state != InProgress && Denies(h, t.caseId, NoKeyUpdate)
    case MergeCaseInfo => t.op.Record? && t.op.info.Some? && Denies(h, t.caseId, NoKeyUpdate)
    case UpsertOwner => t.op.Record? && t.op.owner.Some? && HoldsParty(h, PartyKey(t.caseId, t.op.owner.value.role))
    case UpdateStarted => t.op.MarkStarted? && t.op.workflowId in db.flows && HoldsFlow(h, t.op.workflowId)
    case LockCase => Denies(h, t.caseId, ForUpdate)
    case CompleteFlow => t.op.MarkCompleted? && HoldsFlow(h, t.op.workflowId)
    case _ => false
  }

  predicate Waits(s: Sys, id: TxnId, other: TxnId) {
    id in s.txns && other in s.txns && id != other && Blocks(s.db, s.txns[id], s.txns[other])
  }

  predicate Blocked(s: Sys, id: TxnId) {
    exists other :: other in s.txns && Waits(s, id, other)
  }

  // ---- One statement ----

  function ConfirmedRow(r: FlowRow): FlowRow {
    r.(status := if r.status == Starting then Started else r.status)
  }

  // The committed flows with t's own write over them.
  function FlowView(db: Db, t: Txn): Db {
    if t.flowWrite.Some? && t.op.MarkCompleted? then
      db.(flows := db.flows[t.op.workflowId := t.flowWrite.value])
    else
      db
  }

  // t after its next statement, which nothing blocks.
  function Execute(db: Db, t: Txn): Txn {
    match t.op
    case EnsureCase(c) => Inserted(db, t).(pc := Committing)
    case Record(f, owner, info) => ExecuteRecord(db, t, f, owner, info)
    case MarkStarted(w) =>
      if w in db.flows then t.(pc := Committing, flowWrite := Some(ConfirmedRow(db.flows[w])))
      else t.(pc := Committing, missed := true)
    case MarkCompleted(w) => ExecuteCompletion(db, t, w)
  }

  function Inserted(db: Db, t: Txn): Txn {
    if t.caseId in db.cases then t else t.(insertedCase := true, caseWrite := Some(NEW_CASE))
  }

  function ExecuteRecord(db: Db, t: Txn, f: NewFlow, owner: Option<Owner>, info: Option<CaseInfo>): Txn {
    match t.pc
    case InsertCase => Inserted(db, t).(pc := InsertFlow)
    case InsertFlow =>
      if f.workflowId in db.flows then t.(pc := if t.insertedCase then DropCase else Committing)
      else t.(pc := CheckForeignKey, flowWrite := Some(StartingRow(f)))
    case CheckForeignKey => t.(pc := Reopen, caseLocks := t.caseLocks + {KeyShare})
    case Reopen =>
      var row := CaseView(db, t);
      if row.state == InProgress then t.(pc := MergeCaseInfo)
      else
        t.(pc := MergeCaseInfo, caseLocks := t.caseLocks + {NoKeyUpdate},
           caseWrite := Some(row.(state := InProgress)))
    case MergeCaseInfo =>
      if info.None? then t.(pc := UpsertOwner)
      else
        t.(pc := UpsertOwner, caseLocks := t.caseLocks + {NoKeyUpdate},
           caseWrite := Some(MergeInfo(CaseView(db, t), info)))
    case UpsertOwner =>
      if owner.None? then t.(pc := Committing) else t.(pc := Committing, partyWrite := Some(owner.value.ouHandle))
    case DropCase => t.(pc := Committing, caseWrite := None)
    case _ => t
  }

  function ExecuteCompletion(db: Db, t: Txn, w: WorkflowId): Txn {
    match t.pc
    case ReadFlow =>
      if w in db.flows then t.(pc := LockCase, caseId := db.flows[w].caseId) else t.(pc := Committing, missed := true)
    case LockCase => t.(pc := CompleteFlow, caseLocks := t.caseLocks + {ForUpdate})
    case CompleteFlow =>
      if w in db.flows then t.(pc := FinishCase, flowWrite := Some(db.flows[w].(status := Completed)))
      else t.(pc := FinishCase)
    case FinishCase =>
      if t.caseId in db.cases && db.cases[t.caseId].state != Finished && AllCompleted(FlowView(db, t), t.caseId) then
        t.(pc := Committing, caseWrite := Some(db.cases[t.caseId].(state := Finished)))
      else
        t.(pc := Committing)
    case _ => t
  }

  function ApplyWrites(db: Db, t: Txn): Db {
    Db(
      if t.caseWrite.Some? then db.cases[t.caseId := t.caseWrite.value] else db.cases,
      if t.flowWrite.None? then db.flows
      else match t.op
        case EnsureCase(_) => db.flows
        case Record(f, _, _) => db.flows[f.workflowId := t.flowWrite.value]
        case MarkStarted(w) => db.flows[w := t.flowWrite.value]
        case MarkCompleted(w) => db.flows[w := t.flowWrite.value],
      if t.partyWrite.Some? && t.op.Record? && t.op.owner.Some? then
        db.parties[PartyKey(t.caseId, t.op.owner.value.role) := t.partyWrite.value]
      else
        db.parties)
  }

  predicate IsCommit(s: Sys, step: Step) {
    step.Advance? && step.id in s.txns && s.txns[step.id].pc == Committing
  }

  // A step that cannot be taken (a used ID, no such transaction, a statement that must wait) changes nothing.
  function Apply(s: Sys, step: Step): Sys {
    match step
    case Begin(id, op) => if id in s.txns then s else s.(txns := s.txns[id := Opened(op)])
    case Advance(id) =>
      if id !in s.txns || Blocked(s, id) then s
      else if IsCommit(s, step) then Sys(ApplyWrites(s.db, s.txns[id]), s.txns - {id})
      else s.(txns := s.txns[id := Execute(s.db, s.txns[id])])
    case Rollback(id) => s.(txns := s.txns - {id})
  }

  function Exec(s: Sys, steps: seq<Step>): Sys {
    if steps == [] then s else Apply(Exec(s, steps[..|steps| - 1]), steps[|steps| - 1])
  }

  // The transactions a schedule commits that found their row, in the order it commits them.
  function Commits(s: Sys, steps: seq<Step>): seq<Op> {
    if steps == [] then
      []
    else
      var before := Exec(s, steps[..|steps| - 1]);
      var last := steps[|steps| - 1];
      Commits(s, steps[..|steps| - 1]) +
      if IsCommit(before, last) && !before.txns[last.id].missed then [before.txns[last.id].op] else []
  }
}
