/**
Why Record's statement order and the foreign key of case_flows matter: with the reopen before the flow's
insert, or without the foreign key check, a schedule commits a FINISHED case that has a pending flow.
*/
module CaseOrder {
  import opened Wrappers
  import opened CaseRows
  import opened CaseLocks
  import CaseHistory

  datatype Variant = ReopenFirst | NoForeignKey

  // t, which has just executed the statement at pc, with its next statement as the variant orders them.
  function Reroute(v: Variant, pc: Pc, t: Txn): Txn {
    match v
    case ReopenFirst =>
      if !t.op.Record? then t
      else if pc == InsertCase then t.(pc := Reopen)
      else if pc == Reopen then t.(pc := InsertFlow)
      else if pc == CheckForeignKey then t.(pc := MergeCaseInfo)
      else t
    case NoForeignKey => if t.pc == CheckForeignKey then t.(pc := Reopen) else t
  }

  function ApplyVariant(v: Variant, s: Sys, step: Step): Sys {
    var s' := Apply(s, step);
    if step.Advance? && step.id in s.txns && step.id in s'.txns && s' != s then
      s'.(txns := s'.txns[step.id := Reroute(v, s.txns[step.id].pc, s'.txns[step.id])])
    else
      s'
  }

  function ExecVariant(v: Variant, s: Sys, steps: seq<Step>): Sys
    decreases |steps|
  {
    if steps == [] then s else ExecVariant(v, ApplyVariant(v, s, steps[0]), steps[1..])
  }

  ghost predicate Reaches(v: Variant, s: Sys, s': Sys) {
    exists steps :: ExecVariant(v, s, steps) == s'
  }

  lemma {:induction false} ExecVariantConcat(v: Variant, s: Sys, a: seq<Step>, b: seq<Step>)
    ensures ExecVariant(v, s, a + b) == ExecVariant(v, ExecVariant(v, s, a), b)
    decreases |a|
  {
    if a == [] {
      assert a + b == b;
    } else {
      assert (a + b)[1..] == a[1..] + b;
      ExecVariantConcat(v, ApplyVariant(v, s, a[0]), a[1..], b);
    }
  }

  lemma ReachesThenStep(v: Variant, s: Sys, s': Sys, step: Step)
    requires Reaches(v, s, s')
    ensures Reaches(v, s, ApplyVariant(v, s', step))
  {
    var steps :| ExecVariant(v, s, steps) == s';
    ExecVariantConcat(v, s, steps, [step]);
    assert [step][1..] == [];
    assert ExecVariant(v, s', [step]) == ApplyVariant(v, s', step);
  }

  ghost predicate PendingUnderFinished(db: Db) {
    exists c, w ::
      c in db.cases && db.cases[c].state == Finished &&
      w in db.flows && db.flows[w].caseId == c && db.flows[w].status == Starting
  }

  const FIRST := NewFlow("first", "case", "notice", 1, None)
  const SECOND := NewFlow("second", "case", "export", 1, None)

  function Recording(f: NewFlow, pc: Pc): Txn {
    Opened(Record(f, None, None)).(pc := pc)
  }

  // The case with its first flow recorded, and once that flow's completion has finished it.
  const OPEN := Db(map["case" := NEW_CASE], map["first" := StartingRow(FIRST)], map[])

  const CLOSED :=
    Db(map["case" := NEW_CASE.(state := Finished)], map["first" := StartingRow(FIRST).(status := Completed)], map[])

  // Transaction 2, alone or beside transaction 3.
  function Alone(db: Db, t: Txn): Sys {
    Sys(db, map[2 := t])
  }

  function Beside(db: Db, t: Txn, u: Txn): Sys {
    Sys(db, map[2 := t, 3 := u])
  }

  lemma AloneStep(v: Variant, db: Db, t: Txn, t': Txn)
    requires Reaches(v, INIT, Alone(db, t)) && t.pc != Committing && t' == Reroute(v, t.pc, Execute(db, t)) &&
      Execute(db, t) != t
    ensures Reaches(v, INIT, Alone(db, t'))
  {
    var s := Alone(db, t);
    assert !Blocked(s, 2);
    assert Apply(s, Advance(2)).txns == map[2 := Execute(db, t)];
    assert Apply(s, Advance(2)).txns[2] != s.txns[2];
    assert Apply(s, Advance(2)).txns[2 := t'] == map[2 := t'];
    ReachesThenStep(v, INIT, s, Advance(2));
  }

  lemma AloneCommit(v: Variant, db: Db, t: Txn)
    requires Reaches(v, INIT, Alone(db, t)) && t.pc == Committing
    ensures Reaches(v, INIT, Sys(ApplyWrites(db, t), map[]))
  {
    var s := Alone(db, t);
    assert !Blocked(s, 2);
    assert s.txns - {2} == map[];
    ReachesThenStep(v, INIT, s, Advance(2));
  }

  lemma Begins(v: Variant, db: Db, op: Op)
    requires Reaches(v, INIT, Sys(db, map[]))
    ensures Reaches(v, INIT, Alone(db, Opened(op)))
  {
    ReachesThenStep(v, INIT, Sys(db, map[]), Begin(2, op));
    assert Apply(Sys(db, map[]), Begin(2, op)) == Alone(db, Opened(op));
  }

  lemma CompletionStep(v: Variant, db: Db, t: Txn, u: Txn)
    requires Reaches(v, INIT, Beside(db, t, u))
    requires t.caseLocks == {} && t.op.Record? && t.op.flow == SECOND && u.op == MarkCompleted("first")
    requires u.pc in {ReadFlow, LockCase, CompleteFlow, FinishCase}
    ensures Reaches(v, INIT, Beside(db, t, Execute(db, u)))
  {
    var s := Beside(db, t, u);
    assert !Blocks(db, u, t);
    assert !Blocked(s, 3);
    assert s.txns[3 := Execute(db, u)] == map[2 := t, 3 := Execute(db, u)];
    ReachesThenStep(v, INIT, s, Advance(3));
  }

  // While transaction 2 holds no lock on the case, the first flow's completion runs to its end and finishes it.
  lemma CompletionPasses(v: Variant, t: Txn)
    requires Reaches(v, INIT, Alone(OPEN, t))
    requires t.caseLocks == {} && t.op.Record? && t.op.flow == SECOND
    ensures Reaches(v, INIT, Alone(CLOSED, t))
  {
    CompletionLocks(v, t);
    CompletionFinishes(v, t, LOCKED.(pc := FinishCase, flowWrite := Some(StartingRow(FIRST).(status := Completed))));
  }

  // The first flow's completion once it holds the case.
  const LOCKED := Txn(MarkCompleted("first"), CompleteFlow, "case", {ForUpdate}, false, None, None, None, false)

  lemma CompletionLocks(v: Variant, t: Txn)
    requires Reaches(v, INIT, Alone(OPEN, t))
    requires t.caseLocks == {} && t.op.Record? && t.op.flow == SECOND
    ensures Reaches(v, INIT,
              Beside(OPEN, t, LOCKED.(pc := FinishCase, flowWrite := Some(StartingRow(FIRST).(status := Completed)))))
  {
    CompletionBegins(v, t);
    var read := LOCKED.(pc := LockCase, caseLocks := {});
    CompletionStep(v, OPEN, t, read);
    assert read.caseLocks + {ForUpdate} == {ForUpdate};
    assert Execute(OPEN, read) == LOCKED;
    CompletionStep(v, OPEN, t, LOCKED);
  }

  lemma CompletionBegins(v: Variant, t: Txn)
    requires Reaches(v, INIT, Alone(OPEN, t))
    requires t.caseLocks == {} && t.op.Record? && t.op.flow == SECOND
    ensures Reaches(v, INIT, Beside(OPEN, t, LOCKED.(pc := LockCase, caseLocks := {})))
  {
    var u := Opened(MarkCompleted("first"));
    ReachesThenStep(v, INIT, Alone(OPEN, t), Begin(3, u.op));
    assert Alone(OPEN, t).txns[3 := u] == map[2 := t, 3 := u];
    CompletionStep(v, OPEN, t, u);
  }

  lemma CompletionFinishes(v: Variant, t: Txn, u: Txn)
    requires Reaches(v, INIT, Beside(OPEN, t, u))
    requires t.caseLocks == {} && t.op.Record? && t.op.flow == SECOND
    requires u == Txn(MarkCompleted("first"), FinishCase, "case", {ForUpdate}, false, None,
                      Some(StartingRow(FIRST).(status := Completed)), None, false)
    ensures Reaches(v, INIT, Alone(CLOSED, t))
  {
    CompletionStep(v, OPEN, t, u);
    assert FlowView(OPEN, u).flows == CLOSED.flows;
    var u' := u.(pc := Committing, caseWrite := Some(NEW_CASE.(state := Finished)));
    assert Execute(OPEN, u) == u';
    var s := Beside(OPEN, t, u');
    assert !Blocked(s, 3);
    assert s.txns - {3} == map[2 := t];
    assert ApplyWrites(OPEN, u') == CLOSED;
    ReachesThenStep(v, INIT, s, Advance(3));
  }

  // Recording the first flow of the case goes the same way in both variants, ending at OPEN.
  lemma FirstFlowRecorded(v: Variant)
    ensures Reaches(v, INIT, Sys(OPEN, map[]))
  {
    assert ExecVariant(v, INIT, []) == INIT;
    Begins(v, EMPTY_DB, Record(FIRST, None, None));
    match v
    case ReopenFirst => FirstFlowReopened();
    case NoForeignKey => FirstFlowUnchecked();
  }

  // The first flow's transaction once it has inserted the case, and once it has inserted the flow.
  const CASE_INSERTED := Recording(FIRST, InsertCase).(insertedCase := true, caseWrite := Some(NEW_CASE))
  const FLOW_INSERTED := CASE_INSERTED.(flowWrite := Some(StartingRow(FIRST)))

  lemma FirstFlowReopened()
    requires Reaches(ReopenFirst, INIT, Alone(EMPTY_DB, Recording(FIRST, InsertCase)))
    ensures Reaches(ReopenFirst, INIT, Sys(OPEN, map[]))
  {
    var v, t, w := ReopenFirst, CASE_INSERTED, FLOW_INSERTED;
    AloneStep(v, EMPTY_DB, Recording(FIRST, InsertCase), t.(pc := Reopen));
    AloneStep(v, EMPTY_DB, t.(pc := Reopen), t.(pc := InsertFlow));
    AloneStep(v, EMPTY_DB, t.(pc := InsertFlow), w.(pc := CheckForeignKey));
    var k := w.(caseLocks := {KeyShare});
    assert w.caseLocks + {KeyShare} == {KeyShare};
    AloneStep(v, EMPTY_DB, w.(pc := CheckForeignKey), k.(pc := MergeCaseInfo));
    RecordEnds(v, k.(pc := MergeCaseInfo));
  }

  lemma FirstFlowUnchecked()
    requires Reaches(NoForeignKey, INIT, Alone(EMPTY_DB, Recording(FIRST, InsertCase)))
    ensures Reaches(NoForeignKey, INIT, Sys(OPEN, map[]))
  {
    var v, t, w := NoForeignKey, CASE_INSERTED, FLOW_INSERTED;
    AloneStep(v, EMPTY_DB, Recording(FIRST, InsertCase), t.(pc := InsertFlow));
    AloneStep(v, EMPTY_DB, t.(pc := InsertFlow), w.(pc := Reopen));
    AloneStep(v, EMPTY_DB, w.(pc := Reopen), w.(pc := MergeCaseInfo));
    RecordEnds(v, w.(pc := MergeCaseInfo));
  }

  lemma RecordEnds(v: Variant, t: Txn)
    requires Reaches(v, INIT, Alone(EMPTY_DB, t))
    requires t.op == Record(FIRST, None, None) && t.pc == MergeCaseInfo && t.caseId == "case"
    requires t.caseWrite == Some(NEW_CASE) && t.flowWrite == Some(StartingRow(FIRST)) && t.partyWrite.None?
    ensures Reaches(v, INIT, Sys(OPEN, map[]))
  {
    AloneStep(v, EMPTY_DB, t, t.(pc := UpsertOwner));
    AloneStep(v, EMPTY_DB, t.(pc := UpsertOwner), t.(pc := Committing));
    AloneCommit(v, EMPTY_DB, t.(pc := Committing));
    assert ApplyWrites(EMPTY_DB, t.(pc := Committing)) == OPEN;
  }

  lemma PendingCommits(v: Variant, t: Txn)
    requires Reaches(v, INIT, Alone(CLOSED, t))
    requires t.op == Record(SECOND, None, None) && t.pc == MergeCaseInfo
    requires t.caseWrite.None? && t.flowWrite == Some(StartingRow(SECOND)) && t.partyWrite.None?
    ensures exists s :: Reaches(v, INIT, s) && PendingUnderFinished(s.db)
  {
    AloneStep(v, CLOSED, t, t.(pc := UpsertOwner));
    AloneStep(v, CLOSED, t.(pc := UpsertOwner), t.(pc := Committing));
    AloneCommit(v, CLOSED, t.(pc := Committing));
    var s := Sys(ApplyWrites(CLOSED, t.(pc := Committing)), map[]);
    assert s.db.cases["case"].state == Finished && s.db.flows["second"] == StartingRow(SECOND);
    assert PendingUnderFinished(s.db);
  }

  lemma SecondFlowReopened()
    requires Reaches(ReopenFirst, INIT, Alone(OPEN, Recording(SECOND, InsertCase)))
    ensures exists s :: Reaches(ReopenFirst, INIT, s) && PendingUnderFinished(s.db)
  {
    var v, t := ReopenFirst, Recording(SECOND, InsertCase);
    var w := t.(flowWrite := Some(StartingRow(SECOND)));
    AloneStep(v, OPEN, t, t.(pc := Reopen));
    AloneStep(v, OPEN, t.(pc := Reopen), t.(pc := InsertFlow));
    CompletionPasses(v, t.(pc := InsertFlow));
    AloneStep(v, CLOSED, t.(pc := InsertFlow), w.(pc := CheckForeignKey));
    var k := w.(caseLocks := {KeyShare});
    assert w.caseLocks + {KeyShare} == {KeyShare};
    AloneStep(v, CLOSED, w.(pc := CheckForeignKey), k.(pc := MergeCaseInfo));
    PendingCommits(v, k.(pc := MergeCaseInfo));
  }

  lemma SecondFlowUnchecked()
    requires Reaches(NoForeignKey, INIT, Alone(OPEN, Recording(SECOND, InsertCase)))
    ensures exists s :: Reaches(NoForeignKey, INIT, s) && PendingUnderFinished(s.db)
  {
    var v, t := NoForeignKey, Recording(SECOND, InsertCase);
    var w := t.(flowWrite := Some(StartingRow(SECOND)));
    AloneStep(v, OPEN, t, t.(pc := InsertFlow));
    AloneStep(v, OPEN, t.(pc := InsertFlow), w.(pc := Reopen));
    AloneStep(v, OPEN, w.(pc := Reopen), w.(pc := MergeCaseInfo));
    CompletionPasses(v, w.(pc := MergeCaseInfo));
    PendingCommits(v, w.(pc := MergeCaseInfo));
  }

  // The bad trace the comment in Record predicts, for either change.
  lemma OrderAndForeignKeyAreNeeded(v: Variant)
    ensures exists s :: Reaches(v, INIT, s) && PendingUnderFinished(s.db)
  {
    FirstFlowRecorded(v);
    Begins(v, OPEN, Record(SECOND, None, None));
    match v
    case ReopenFirst => SecondFlowReopened();
    case NoForeignKey => SecondFlowUnchecked();
  }
}
