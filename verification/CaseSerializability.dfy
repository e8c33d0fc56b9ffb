/**
The locked statements refine whole transactions: what any schedule of statements, waits and rollbacks
commits is what its transactions commit one at a time, in commit order.
*/
module CaseSerializability {
  import opened Wrappers
  import opened CaseRows
  import opened CaseLocks
  import CaseHistory

  // ---- What each transaction knows ----

  predicate Clean(t: Txn) {
    t.caseLocks == {} && !t.insertedCase && t.caseWrite.None? && t.flowWrite.None? && t.partyWrite.None? && !t.missed
  }

  // t's case row once Record has reopened it.
  function Reopened(db: Db, c: CaseId): CaseRow {
    CaseOrNew(db, c).(state := InProgress)
  }

  // Record holds its case with a row of its own exactly as strongly as it needs to.
  predicate RecordHolds(db: Db, t: Txn) {
    && KeyShare in t.caseLocks
    && ForUpdate !in t.caseLocks
    && (t.caseWrite.Some? && !t.insertedCase ==> NoKeyUpdate in t.caseLocks)
    && (NoKeyUpdate in t.caseLocks ==> t.caseWrite.Some?)
    && (t.caseWrite.None? ==> t.caseId in db.cases && db.cases[t.caseId].state == InProgress)
  }

  // Record's case row is reopened and carries info; without a write of its own there was nothing to write.
  predicate Merged(db: Db, t: Txn, info: Option<CaseInfo>) {
    && CaseView(db, t) == MergeInfo(Reopened(db, t.caseId), info)
    && (t.caseWrite.None? ==> info.None?)
  }

  ghost predicate RecordOk(db: Db, t: Txn)
    requires t.op.Record?
  {
    var f := t.op.flow;
    && t.caseId == f.caseId
    && !t.missed
    && (t.insertedCase ==> t.caseId !in db.cases)
    && (t.pc != InsertCase && !t.insertedCase ==> t.caseId in db.cases)
    && (t.flowWrite.Some? ==> f.workflowId !in db.flows && t.flowWrite.value == StartingRow(f))
    && match t.pc
       case InsertCase => Clean(t)
       case InsertFlow =>
         t.caseLocks == {} && t.flowWrite.None? && t.partyWrite.None? && t.caseWrite == FreshCase(t)
       case CheckForeignKey =>
         t.caseLocks == {} && t.flowWrite.Some? && t.partyWrite.None? && t.caseWrite == FreshCase(t)
       case Reopen =>
         t.caseLocks == {KeyShare} && t.flowWrite.Some? && t.partyWrite.None? && t.caseWrite == FreshCase(t)
       case MergeCaseInfo =>
         RecordHolds(db, t) && t.flowWrite.Some? && t.partyWrite.None? && CaseView(db, t) == Reopened(db, t.caseId)
       case UpsertOwner =>
         && RecordHolds(db, t) && t.flowWrite.Some? && t.partyWrite.None?
         && Merged(db, t, t.op.info)
       case DropCase =>
         t.insertedCase && t.caseLocks == {} && t.flowWrite.None? && t.partyWrite.None? && f.workflowId in db.flows
       case Committing =>
         if t.flowWrite.Some? then
           && RecordHolds(db, t)
           && Merged(db, t, t.op.info)
           && t.partyWrite == if t.op.owner.Some? then Some(t.op.owner.value.ouHandle) else None
         else
           t.caseLocks == {} && t.caseWrite.None? && t.partyWrite.None? && f.workflowId in db.flows
       case _ => false
  }

  function FreshCase(t: Txn): Option<CaseRow> {
    if t.insertedCase then Some(NEW_CASE) else None
  }

  ghost predicate CompletionOk(db: Db, t: Txn)
    requires t.op.MarkCompleted?
  {
    var w := t.op.workflowId;
    && !t.insertedCase && t.partyWrite.None?
    && (t.pc != ReadFlow && !t.missed ==>
          w in db.flows && db.flows[w].caseId == t.caseId && t.caseId in db.cases)
    && (t.flowWrite.Some? ==> w in db.flows && t.flowWrite.value == db.flows[w].(status := Completed))
    && match t.pc
       case ReadFlow => Clean(t)
       case LockCase => Clean(t)
       case CompleteFlow => t.caseLocks == {ForUpdate} && t.caseWrite.None? && t.flowWrite.None? && !t.missed
       case FinishCase => t.caseLocks == {ForUpdate} && t.caseWrite.None? && t.flowWrite.Some? && !t.missed
       case Committing =>
         if t.missed then
           t.caseLocks == {} && t.caseWrite.None? && t.flowWrite.None?
         else
           && t.caseLocks == {ForUpdate} && t.flowWrite.Some?
           && t.caseWrite ==
              if db.cases[t.caseId].state != Finished && AllCompleted(FlowView(db, t), t.caseId)
              then Some(db.cases[t.caseId].(state := Finished)) else None
       case _ => false
  }

  ghost predicate TxnOk(db: Db, t: Txn) {
    match t.op
    case EnsureCase(c) =>
      && t.caseId == c && t.caseLocks == {} && t.flowWrite.None? && t.partyWrite.None? && !t.missed
      && t.caseWrite == FreshCase(t)
      && (t.insertedCase ==> c !in db.cases)
      && (t.pc == InsertCase || t.pc == Committing)
      && (t.pc == InsertCase ==> !t.insertedCase)
      && (t.pc == Committing && !t.insertedCase ==> c in db.cases)
    case Record(_, _, _) => RecordOk(db, t)
    case MarkStarted(w) =>
      && t.caseLocks == {} && !t.insertedCase && t.caseWrite.None? && t.partyWrite.None?
      && (t.pc == UpdateStarted || t.pc == Committing)
      && (t.pc == UpdateStarted ==> t.flowWrite.None? && !t.missed)
      && (t.pc == Committing ==> t.missed == t.flowWrite.None?)
      && (t.flowWrite.Some? ==> w in db.flows && t.flowWrite.value == ConfirmedRow(db.flows[w]))
    case MarkCompleted(_) => CompletionOk(db, t)
  }

  // ---- Locks exclude each other ----

  ghost predicate Exclusive(t: Txn, x: Txn) {
    && (t.caseId == x.caseId ==> !(t.insertedCase && x.insertedCase))
    && (t.caseId == x.caseId ==> forall m, n :: m in t.caseLocks && n in x.caseLocks ==> !Conflict(m, n))
    && (forall w :: !(HoldsFlow(t, w) && HoldsFlow(x, w)))
    && (forall k :: !(HoldsParty(t, k) && HoldsParty(x, k)))
  }

  ghost predicate Inv(s: Sys) {
    && CaseHistory.Consistent(s.db)
    && (forall id :: id in s.txns ==> TxnOk(s.db, s.txns[id]))
    && (forall id, other :: id in s.txns && other in s.txns && id != other ==> Exclusive(s.txns[id], s.txns[other]))
  }

  // ---- A statement keeps the invariant ----

  lemma StatementOk(db: Db, t: Txn)
    requires TxnOk(db, t) && t.pc != Committing && CaseHistory.ForeignKeys(db)
    ensures TxnOk(db, Execute(db, t))
  {
    match t.op
    case EnsureCase(_) =>
    case Record(_, _, _) => RecordStatementOk(db, t);
    case MarkStarted(_) =>
    case MarkCompleted(_) =>
  }

  lemma RecordStatementOk(db: Db, t: Txn)
    requires t.op.Record? && RecordOk(db, t) && t.pc != Committing
    ensures RecordOk(db, Execute(db, t))
  {
    match t.pc
    case InsertCase =>
    case InsertFlow =>
    case CheckForeignKey =>
    case Reopen =>
    case MergeCaseInfo =>
    case UpsertOwner =>
    case DropCase =>
    case _ =>
  }

  lemma StatementExclusive(db: Db, t: Txn, x: Txn)
    requires TxnOk(db, t) && TxnOk(db, x) && Exclusive(t, x)
    requires t.pc != Committing && !Blocks(db, t, x)
    ensures Exclusive(Execute(db, t), x)
  {
    match t.op
    case EnsureCase(_) =>
    case Record(_, _, _) => RecordStatementExclusive(db, t, x);
    case MarkStarted(_) =>
    case MarkCompleted(_) =>
  }

  lemma RecordStatementExclusive(db: Db, t: Txn, x: Txn)
    requires t.op.Record? && RecordOk(db, t) && TxnOk(db, x) && Exclusive(t, x)
    requires t.pc != Committing && !Blocks(db, t, x)
    ensures Exclusive(Execute(db, t), x)
  {
    match t.pc
    case InsertCase =>
    case InsertFlow =>
    case CheckForeignKey =>
    case Reopen =>
    case MergeCaseInfo =>
    case UpsertOwner =>
    case _ =>
  }

  // ---- A commit is its whole transaction, and leaves the others undisturbed ----

  lemma CommitIsAtomic(db: Db, t: Txn)
    requires TxnOk(db, t) && t.pc == Committing && CaseHistory.ForeignKeys(db)
    ensures ApplyWrites(db, t) == if t.missed then db else Atomic(db, t.op)
  {
    match t.op
    case EnsureCase(c) =>
    case Record(f, owner, info) =>
    case MarkStarted(w) =>
      if !t.missed {
        assert db.flows[w].status != Starting ==> db.flows[w := db.flows[w]] == db.flows;
      }
    case MarkCompleted(w) =>
      if !t.missed {
        assert FlowView(db, t) == db.(flows := db.flows[w := db.flows[w].(status := Completed)]);
        var row := db.cases[t.caseId];
        assert row.state == Finished ==> db.cases[t.caseId := row.(state := Finished)] == db.cases;
      }
  }

  // What x relies on in the committed rows, and what another's commit leaves as it was.
  ghost predicate Undisturbed(db: Db, db': Db, x: Txn) {
    && db.cases.Keys <= db'.cases.Keys
    && db.flows.Keys <= db'.flows.Keys
    && (forall w :: w in db.flows ==> db'.flows[w].caseId == db.flows[w].caseId)
    && (x.insertedCase ==> x.caseId !in db'.cases)
    && (forall w :: HoldsFlow(x, w) ==>
          && (w in db'.flows <==> w in db.flows)
          && (w in db.flows ==> db'.flows[w] == db.flows[w]))
    && (x.caseLocks != {} && x.caseId in db.cases && db.cases[x.caseId].state == InProgress ==>
          db'.cases[x.caseId].state == InProgress)
    && (NoKeyUpdate in x.caseLocks || ForUpdate in x.caseLocks ==>
          CaseOrNew(db', x.caseId) == CaseOrNew(db, x.caseId))
    && (ForUpdate in x.caseLocks ==>
          && (forall w :: w in db'.flows && db'.flows[w].caseId == x.caseId ==> w in db.flows)
          && (forall w :: w in db.flows && db.flows[w].caseId == x.caseId ==>
                (db'.flows[w].status == Completed <==> db.flows[w].status == Completed)))
  }

  lemma CommitUndisturbs(db: Db, t: Txn, x: Txn)
    requires CaseHistory.ForeignKeys(db) && TxnOk(db, t) && TxnOk(db, x) && Exclusive(t, x) && t.pc == Committing
    ensures Undisturbed(db, ApplyWrites(db, t), x)
  {
    match t.op
    case EnsureCase(_) =>
    case Record(f, _, _) => RecordUndisturbs(db, t, x, f);
    case MarkStarted(w) =>
    case MarkCompleted(w) => CompletionUndisturbs(db, t, x, w);
  }

  lemma RecordUndisturbs(db: Db, t: Txn, x: Txn, f: NewFlow)
    requires CaseHistory.ForeignKeys(db) && t.op.Record? && t.op.flow == f
    requires TxnOk(db, t) && TxnOk(db, x) && Exclusive(t, x) && t.pc == Committing
    ensures Undisturbed(db, ApplyWrites(db, t), x)
  {
    if t.flowWrite.Some? {
      assert HoldsFlow(t, f.workflowId);
      assert KeyShare in t.caseLocks;
      assert t.caseId == x.caseId ==> ForUpdate !in x.caseLocks by {
        assert Conflict(KeyShare, ForUpdate);
      }
    }
  }

  lemma ForUpdateExcludes(t: Txn, x: Txn)
    requires Exclusive(t, x) && ForUpdate in t.caseLocks && t.caseId == x.caseId
    ensures x.caseLocks == {}
  {
    assert forall m :: Conflict(ForUpdate, m);
  }

  lemma CompletionUndisturbs(db: Db, t: Txn, x: Txn, w: WorkflowId)
    requires CaseHistory.ForeignKeys(db) && t.op == MarkCompleted(w)
    requires TxnOk(db, t) && TxnOk(db, x) && Exclusive(t, x) && t.pc == Committing
    ensures Undisturbed(db, ApplyWrites(db, t), x)
  {
    if !t.missed {
      assert HoldsFlow(t, w);
      assert ForUpdate in t.caseLocks;
      if t.caseId == x.caseId {
        ForUpdateExcludes(t, x);
      }
    }
  }

  lemma UndisturbedOk(db: Db, db': Db, x: Txn)
    requires TxnOk(db, x) && Undisturbed(db, db', x)
    ensures TxnOk(db', x)
  {
    match x.op
    case EnsureCase(_) =>
    case Record(f, _, _) =>
      UndisturbedRecord(db, db', x, f);
    case MarkStarted(w) =>
      assert x.flowWrite.Some? ==> HoldsFlow(x, w);
    case MarkCompleted(w) =>
      assert x.flowWrite.Some? ==> HoldsFlow(x, w);
      UndisturbedCompletion(db, db', x, w);
  }

  lemma UndisturbedRecord(db: Db, db': Db, x: Txn, f: NewFlow)
    requires x.op.Record? && x.op.flow == f && RecordOk(db, x) && Undisturbed(db, db', x)
    ensures RecordOk(db', x)
  {
    assert x.flowWrite.Some? ==> HoldsFlow(x, f.workflowId);
    if x.pc in {MergeCaseInfo, UpsertOwner, Committing} && x.flowWrite.Some? {
      if x.caseWrite.Some? && x.insertedCase {
        assert CaseOrNew(db', x.caseId) == CaseOrNew(db, x.caseId) == NEW_CASE;
      }
    }
  }

  lemma UndisturbedCompletion(db: Db, db': Db, x: Txn, w: WorkflowId)
    requires x.op == MarkCompleted(w) && CompletionOk(db, x) && Undisturbed(db, db', x)
    ensures CompletionOk(db', x)
  {
    if x.pc == Committing && !x.missed {
      assert HoldsFlow(x, w);
      var v, v' := FlowView(db, x), FlowView(db', x);
      assert AllCompleted(v', x.caseId) == AllCompleted(v, x.caseId) by {
        if AllCompleted(v, x.caseId) {
          forall u | u in v'.flows && v'.flows[u].caseId == x.caseId
            ensures v'.flows[u].status == Completed
          {
            assert u in v.flows;
          }
        }
        if AllCompleted(v', x.caseId) {
          forall u | u in v.flows && v.flows[u].caseId == x.caseId
            ensures v.flows[u].status == Completed
          {
            assert u in v'.flows;
          }
        }
      }
    }
  }

  // ---- Every schedule ----

  lemma BeginKeepsInv(s: Sys, id: TxnId, op: Op)
    requires Inv(s)
    ensures Inv(Apply(s, Begin(id, op)))
  {
    assert TxnOk(s.db, Opened(op));
    forall other | other in s.txns
      ensures Exclusive(Opened(op), s.txns[other]) && Exclusive(s.txns[other], Opened(op))
    {
    }
  }

  lemma RollbackKeepsInv(s: Sys, id: TxnId)
    requires Inv(s)
    ensures Inv(Apply(s, Rollback(id)))
  {
  }

  lemma ApplyKeepsInv(s: Sys, step: Step)
    requires Inv(s)
    ensures Inv(Apply(s, step))
  {
    match step
    case Begin(id, op) => BeginKeepsInv(s, id, op);
    case Rollback(id) => RollbackKeepsInv(s, id);
    case Advance(id) =>
      if id in s.txns && !Blocked(s, id) {
        if IsCommit(s, step) {
          CommitKeepsInv(s, id);
        } else {
          StatementKeepsInv(s, id);
        }
      }
  }

  lemma StatementKeepsInv(s: Sys, id: TxnId)
    requires Inv(s) && id in s.txns && !Blocked(s, id) && s.txns[id].pc != Committing
    ensures Inv(Apply(s, Advance(id)))
  {
    StatementOk(s.db, s.txns[id]);
    forall other | other in s.txns && other != id
      ensures Exclusive(Execute(s.db, s.txns[id]), s.txns[other])
      ensures Exclusive(s.txns[other], Execute(s.db, s.txns[id]))
    {
      ConflictIsSymmetric();
      assert !Waits(s, id, other);
      StatementExclusive(s.db, s.txns[id], s.txns[other]);
    }
  }

  lemma ConflictIsSymmetric()
    ensures forall m, n :: Conflict(m, n) == Conflict(n, m)
  {
  }

  lemma CommitKeepsInv(s: Sys, id: TxnId)
    requires Inv(s) && id in s.txns && s.txns[id].pc == Committing
    ensures Inv(Apply(s, Advance(id)))
  {
    var t := s.txns[id];
    var db' := ApplyWrites(s.db, t);
    CommitIsAtomic(s.db, t);
    CaseHistory.AtomicKeepsConsistent(s.db, t.op);
    forall other | other in s.txns && other != id
      ensures TxnOk(db', s.txns[other])
    {
      CommitUndisturbs(s.db, t, s.txns[other]);
      UndisturbedOk(s.db, db', s.txns[other]);
    }
    assert !Blocked(s, id);
  }

  lemma {:induction false} EveryScheduleKeepsInv(steps: seq<Step>)
    ensures Inv(Exec(INIT, steps))
  {
    if steps != [] {
      EveryScheduleKeepsInv(steps[..|steps| - 1]);
      ApplyKeepsInv(Exec(INIT, steps[..|steps| - 1]), steps[|steps| - 1]);
    }
  }

  // Serializability: the committed rows are those of the committed transactions run one at a time.
  lemma {:induction false} CommitsAreSerial(steps: seq<Step>)
    ensures Exec(INIT, steps).db == AtomicRun(EMPTY_DB, Commits(INIT, steps))
  {
    if steps != [] {
      var before, last := steps[..|steps| - 1], steps[|steps| - 1];
      CommitsAreSerial(before);
      EveryScheduleKeepsInv(before);
      var s := Exec(INIT, before);
      var ops := Commits(INIT, before);
      assert ops + [] == ops;
      if IsCommit(s, last) {
        var t := s.txns[last.id];
        CommitIsAtomic(s.db, t);
        assert !Blocked(s, last.id);
        assert (ops + [t.op])[..|ops|] == ops;
      }
    }
  }

  // The label of a committed case is right whatever the schedule.
  lemma CaseLabelIsRight(steps: seq<Step>, c: CaseId)
    requires c in Exec(INIT, steps).db.cases
    ensures
      var db := Exec(INIT, steps).db;
      db.cases[c].state == Finished <==> HasFlow(db, c) && AllCompleted(db, c)
  {
    EveryScheduleKeepsInv(steps);
    assert CaseHistory.CaseLabel(Exec(INIT, steps).db, c);
  }

  // So is what the case and its role holders record.
  lemma CommittedRowsFoldInserts(steps: seq<Step>)
    ensures
      var ops := Commits(INIT, steps);
      CaseHistory.RowsAreFold(Exec(INIT, steps).db, CaseHistory.Inserts(ops), CaseHistory.Ensured(ops))
  {
    CommitsAreSerial(steps);
    CaseHistory.RowsFoldInserts(Commits(INIT, steps));
  }

  // A case row is there exactly when it was ensured or a flow of it was recorded.
  lemma CommittedCasesAreOwned(steps: seq<Step>, c: CaseId)
    ensures
      var db := Exec(INIT, steps).db;
      c in db.cases <==> c in CaseHistory.Ensured(Commits(INIT, steps)) || HasFlow(db, c)
  {
    CommitsAreSerial(steps);
    CaseHistory.CaseRowsAreOwned(Commits(INIT, steps), c);
  }

  // The status of a committed flow is what the committed operations that name it make it, in their order.
  lemma CommittedStatusFollows(steps: seq<Step>, w: WorkflowId)
    ensures CaseHistory.StatusFollows(Exec(INIT, steps).db, Commits(INIT, steps), w)
  {
    CommitsAreSerial(steps);
    CaseHistory.StatusIsOfItsOwnOperations(Commits(INIT, steps), w);
  }

  lemma StepMovesForward(s: Sys, step: Step)
    requires Inv(s)
    ensures CaseHistory.Forward(s.db, Apply(s, step).db)
  {
    if IsCommit(s, step) && !Blocked(s, step.id) {
      CommitIsAtomic(s.db, s.txns[step.id]);
      CaseHistory.AtomicMovesForward(s.db, s.txns[step.id].op);
    }
  }

  // Whatever a schedule goes on to do, no committed row goes, no flow becomes another, and no status moves back.
  lemma {:induction false} SchedulesMoveForward(before: seq<Step>, after: seq<Step>)
    ensures CaseHistory.Forward(Exec(INIT, before).db, Exec(INIT, before + after).db)
  {
    if after == [] {
      assert before + after == before;
    } else {
      var all := before + after;
      assert all[..|all| - 1] == before + after[..|after| - 1];
      SchedulesMoveForward(before, after[..|after| - 1]);
      EveryScheduleKeepsInv(all[..|all| - 1]);
      StepMovesForward(Exec(INIT, all[..|all| - 1]), all[|all| - 1]);
      CaseHistory.ForwardOnward(Exec(INIT, before).db, Exec(INIT, all[..|all| - 1]).db, Exec(INIT, all).db);
    }
  }

  // A transaction misses exactly when it looks up a workflow ID that has no committed flow at that moment.
  lemma MissesExactlyTheUnknown(steps: seq<Step>, id: TxnId)
    requires id in Exec(INIT, steps).txns && !Blocked(Exec(INIT, steps), id)
    requires !Exec(INIT, steps).txns[id].missed && Exec(INIT, steps).txns[id].pc != Committing
    ensures
      var s := Exec(INIT, steps);
      var t := s.txns[id];
      var s' := Apply(s, Advance(id));
      && id in s'.txns
      && (s'.txns[id].missed <==>
            || (t.op.MarkStarted? && t.op.workflowId !in s.db.flows)
            || (t.op.MarkCompleted? && t.pc == ReadFlow && t.op.workflowId !in s.db.flows))
  {
    EveryScheduleKeepsInv(steps);
    assert TxnOk(Exec(INIT, steps).db, Exec(INIT, steps).txns[id]);
  }

  // Commits leaves out only a status change of a workflow ID with no flow, which writes nothing.
  lemma LeftOutWritesNothing(steps: seq<Step>, id: TxnId)
    requires id in Exec(INIT, steps).txns && Exec(INIT, steps).txns[id].missed
    ensures
      var s := Exec(INIT, steps);
      var t := s.txns[id];
      && (t.op.MarkStarted? || t.op.MarkCompleted?) && t.pc == Committing
      && ApplyWrites(s.db, t) == s.db
  {
    EveryScheduleKeepsInv(steps);
    assert TxnOk(Exec(INIT, steps).db, Exec(INIT, steps).txns[id]);
  }
}
