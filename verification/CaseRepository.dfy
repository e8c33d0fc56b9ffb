/**
The repository of internal/caseflow/repository.go as one caller sees it: each method runs its statements
on the transaction's own view of the rows and commits them, or leaves every row as it was.
*/
module CaseRepository {
  import opened Wrappers
  import opened CaseRows

  datatype RepositoryError = FlowNotFound | StatementFailed

  // The statements of Record that can fail and so roll it back.
  datatype RecordStatement = InsertCase | InsertFlow | DeleteCase | ReopenCase | MergeCase | UpsertParty | Commit

  class Repository {
    var db: Db

    constructor ()
      ensures db == EMPTY_DB
    {
      db := EMPTY_DB;
    }

    method EnsureCase(c: CaseId)
      modifies this
      ensures db == Atomic(old(db), Op.EnsureCase(c))
    {
      if c !in db.cases {
        db := db.(cases := db.cases[c := NEW_CASE]);
      }
    }

    // Whether Record reaches a statement that fails: a repeat only takes back the case it inserted, a first record
    // goes on to reopen the case, merge the case info if any and set the owner if any.
    ghost predicate Fails(f: NewFlow, owner: Option<Owner>, info: Option<CaseInfo>, faults: set<RecordStatement>)
      reads this
    {
      || InsertCase in faults || InsertFlow in faults || Commit in faults
      || (f.workflowId in db.flows && f.caseId !in db.cases && DeleteCase in faults)
      || (f.workflowId !in db.flows
          && (ReopenCase in faults || (info.Some? && MergeCase in faults) || (owner.Some? && UpsertParty in faults)))
    }

    // faults are the statements that fail; without one the whole of Record commits, with one none of it does.
    method Record(f: NewFlow, owner: Option<Owner>, info: Option<CaseInfo>, faults: set<RecordStatement>)
      returns (failed: bool)
      modifies this
      ensures failed <==> old(Fails(f, owner, info, faults))
      ensures failed ==> db == old(db)
      ensures !failed ==> db == AtomicRecord(old(db), f, owner, info)
      ensures !failed && f.workflowId !in old(db).flows ==>
        && f.workflowId in db.flows
        && db.flows[f.workflowId] == FlowRow(f.caseId, f.templateId, f.manifestVersion, Starting, f.payload)
    {
      var tx := db;
      if InsertCase in faults {
        return true;
      }
      var caseInserted := f.caseId !in tx.cases;
      if caseInserted {
        tx := tx.(cases := tx.cases[f.caseId := NEW_CASE]);
      }
      if InsertFlow in faults {
        return true;
      }
      if f.workflowId in tx.flows {
        if caseInserted {
          if DeleteCase in faults {
            return true;
          }
          // A repeat must not leave behind the empty case inserted above.
          tx := tx.(cases := tx.cases - {f.caseId});
          assert tx.cases == old(db).cases;
        }
      } else {
        tx := tx.(flows := tx.flows[f.workflowId := StartingRow(f)]);
        if ReopenCase in faults {
          return true;
        }
        if tx.cases[f.caseId].state != InProgress {
          tx := tx.(cases := tx.cases[f.caseId := tx.cases[f.caseId].(state := InProgress)]);
        }
        if info.Some? {
          if MergeCase in faults {
            return true;
          }
          tx := tx.(cases := tx.cases[f.caseId := MergeInfo(tx.cases[f.caseId], info)]);
        }
        if owner.Some? {
          if UpsertParty in faults {
            return true;
          }
          tx := tx.(parties := tx.parties[PartyKey(f.caseId, owner.value.role) := owner.value.ouHandle]);
        }
        var row := MergeInfo(CaseOrNew(db, f.caseId).(state := InProgress), info);
        assert tx.cases[f.caseId] == row;
        assert tx.cases == db.cases[f.caseId := row];
      }
      if Commit in faults {
        return true;
      }
      db := tx;
      failed := false;
    }

    method MarkStarted(w: WorkflowId) returns (r: Result<(), RepositoryError>)
      modifies this
      ensures db == AtomicMarkStarted(old(db), w)
      ensures r == if w in old(db).flows then Ok(()) else Err(FlowNotFound)
    {
      if w !in db.flows {
        return Err(FlowNotFound);
      }
      var row := db.flows[w];
      var status := if row.status == Starting then Started else row.status;
      assert status == row.status ==> db.flows[w := row] == db.flows;
      db := db.(flows := db.flows[w := row.(status := status)]);
      return Ok(());
    }

    method Get(w: WorkflowId) returns (r: Result<FlowRow, RepositoryError>)
      ensures r == if w in db.flows then Ok(db.flows[w]) else Err(FlowNotFound)
    {
      if w !in db.flows {
        return Err(FlowNotFound);
      }
      return Ok(db.flows[w]);
    }

    // case_flows.case_id references cases, so every flow has its case row.
    method MarkCompleted(w: WorkflowId) returns (found: bool)
      requires forall v :: v in db.flows ==> db.flows[v].caseId in db.cases
      modifies this
      ensures db == AtomicMarkCompleted(old(db), w)
      ensures found == (w in old(db).flows)
    {
      if w !in db.flows {
        return false;
      }
      var c := db.flows[w].caseId;
      var tx := db.(flows := db.flows[w := db.flows[w].(status := Completed)]);
      if tx.cases[c].state != Finished && AllCompleted(tx, c) {
        tx := tx.(cases := tx.cases[c := tx.cases[c].(state := Finished)]);
      }
      assert db.cases[c].state == Finished ==> db.cases[c := db.cases[c].(state := Finished)] == db.cases;
      db := tx;
      found := true;
    }
  }
}
