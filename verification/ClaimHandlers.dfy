/**
HandleClaimTask and HandleReleaseTask of internal/tasks/claim_handler.go, step by step, for a caller who
may read a claimable task. The record they were given may be stale by the time they act on it.
*/
module ClaimHandlers {
  import opened Wrappers
  import opened ClaimTakeover

  datatype ClaimAudit = ClaimAudit(op: Op, previous: UserId, released: bool, failed: bool)

  class TaskManager {
    var tasks: map<TaskId, TaskRecord>

    constructor (tasks: map<TaskId, TaskRecord>)
      ensures this.tasks == tasks
    {
      this.tasks := tasks;
    }

    method Claim(t: TaskId, holder: UserId, fault: bool) returns (err: Option<ClaimError>)
      modifies this
      ensures err == ErrorOf(ClaimTask(old(tasks), t, holder, fault))
      ensures tasks == if err.None? then old(tasks)[t := TaskRecord(holder, false)] else old(tasks)
    {
      var r := ClaimTask(tasks, t, holder, fault);
      if r.Err? {
        return Some(r.error);
      }
      tasks := r.value;
      return None;
    }

    method Release(t: TaskId, holder: UserId, fault: bool, keepsCompleted: bool) returns (err: Option<ClaimError>)
      modifies this
      ensures err == ErrorOf(ReleaseTask(old(tasks), t, holder, fault, keepsCompleted))
      ensures err.None? ==> t in tasks && tasks == old(tasks)[t := old(tasks)[t].(claimedBy := "")]
      ensures err.None? ==> old(tasks)[t].claimedBy == "" || old(tasks)[t].claimedBy == holder
      ensures err.Some? ==> tasks == old(tasks)
    {
      var r := ReleaseTask(tasks, t, holder, fault, keepsCompleted);
      if r.Err? {
        return Some(r.error);
      }
      assert tasks[t].claimedBy == "" ==> tasks[t := tasks[t].(claimedBy := "")] == tasks;
      tasks := r.value;
      return None;
    }
  }

  // Whether the record read makes a claim a takeover.
  predicate TakesOver(record: TaskRecord, user: UserId) {
    !record.completed && record.claimedBy !in {"", user}
  }

  // Whether its release of the holder it read then succeeds on these tasks.
  predicate FreesHolder(
    tasks: map<TaskId, TaskRecord>, t: TaskId, user: UserId, record: TaskRecord, fault: bool, keepsCompleted: bool)
  {
    && TakesOver(record, user) && !fault
    && t in tasks && !(tasks[t].completed && keepsCompleted) && tasks[t].claimedBy in {"", record.claimedBy}
  }

  class ClaimHandler {
    const manager: TaskManager
    var audits: seq<ClaimAudit>

    constructor (manager: TaskManager)
      ensures this.manager == manager && audits == []
    {
      this.manager := manager;
      audits := [];
    }

    // answerClaim. A refusal is recorded as a failure; a missing task, a caller without a user ID and a failure of the
    // manager's own leave no record.
    method AnswerClaim(op: Op, previous: UserId, released: bool, err: Option<ClaimError>) returns (status: Status)
      modifies this
      ensures status == NoContent <==> err.None?
      ensures status == StatusOf(err)
      ensures audits == old(audits) + if status in {NoContent, Conflict, Forbidden}
                                      then [ClaimAudit(op, previous, released, status != NoContent)] else []
    {
      if Audits(err) {
        audits := audits + [ClaimAudit(op, previous, released, err.Some?)];
      }
      status := StatusOf(err);
    }

    // record is what the caller read of the task, which may have changed since.
    method HandleClaimTask(
      t: TaskId, user: UserId, record: TaskRecord, releaseFault: bool, claimFault: bool, keepsCompleted: bool)
      returns (status: Status)
      requires user != ""
      modifies this, manager
      // A 204 is the caller holding the open task's claim. It is the answer exactly when the task was read open, is
      // still there and open, nobody else took the claim since it was read, and no call fails.
      ensures status == NoContent <==>
        && !record.completed && t in old(manager.tasks) && !old(manager.tasks)[t].completed && !claimFault
        && if TakesOver(record, user) then !releaseFault && old(manager.tasks)[t].claimedBy in {"", record.claimedBy}
           else old(manager.tasks)[t].claimedBy in {"", user}
      // A task that is gone is a 404, a call that fails a 500, and everything else is refused with a 409.
      ensures status == NotFound <==>
        && !record.completed && t !in old(manager.tasks)
        && !(if TakesOver(record, user) then releaseFault else claimFault)
      ensures status == InternalError <==>
        && !record.completed
        && if TakesOver(record, user) && !FreesHolder(old(manager.tasks), t, user, record, releaseFault, keepsCompleted)
           then releaseFault else claimFault
      ensures status in {NoContent, NotFound, InternalError, Conflict}
      // A takeover that fails leaves the claim it read released exactly when its release succeeded.
      ensures manager.tasks ==
        if status == NoContent then old(manager.tasks)[t := TaskRecord(user, false)]
        else if FreesHolder(old(manager.tasks), t, user, record, releaseFault, keepsCompleted)
        then old(manager.tasks)[t := old(manager.tasks)[t].(claimedBy := "")]
        else old(manager.tasks)
      // One record is written for a 204 or a 409, and none otherwise; it says whether that release succeeded.
      ensures audits == old(audits) +
        if status !in {NoContent, Conflict} then []
        else if !TakesOver(record, user) then [ClaimAudit(Claim, "", false, status == Conflict)]
        else [ClaimAudit(
                Takeover, record.claimedBy,
                FreesHolder(old(manager.tasks), t, user, record, releaseFault, keepsCompleted), status == Conflict)]
    {
      if record.completed {
        status := AnswerClaim(Claim, "", false, Some(TaskCompleted));
        return;
      }
      var op, previous, released := Claim, "", false;
      if record.claimedBy != "" && record.claimedBy != user {
        op, previous := Takeover, record.claimedBy;
        var err := manager.Release(t, previous, releaseFault, keepsCompleted);
        if err.Some? {
          if err == Some(NotClaimHolder) {
            err := Some(ClaimHeld);
          }
          status := AnswerClaim(op, previous, released, err);
          return;
        }
        released := true;
      }
      var err := manager.Claim(t, user, claimFault);
      status := AnswerClaim(op, previous, released, err);
    }

    method HandleReleaseTask(t: TaskId, user: UserId, fault: bool, keepsCompleted: bool) returns (status: Status)
      requires user != ""
      modifies this, manager
      // 204 exactly when the task is there, its claim may be released, and nobody but the caller holds it.
      ensures status == NoContent <==>
        && !fault && t in old(manager.tasks) && !(old(manager.tasks)[t].completed && keepsCompleted)
        && old(manager.tasks)[t].claimedBy in {"", user}
      ensures status == Forbidden <==>
        && !fault && t in old(manager.tasks) && !(old(manager.tasks)[t].completed && keepsCompleted)
        && old(manager.tasks)[t].claimedBy !in {"", user}
      ensures status == Conflict <==>
        !fault && t in old(manager.tasks) && old(manager.tasks)[t].completed && keepsCompleted
      ensures status == NotFound <==> !fault && t !in old(manager.tasks)
      ensures status == InternalError <==> fault
      ensures manager.tasks ==
        if status == NoContent then old(manager.tasks)[t := old(manager.tasks)[t].(claimedBy := "")]
        else old(manager.tasks)
      // Applied and refused releases are recorded; a missing task and a failure are not.
      ensures audits == old(audits) +
        if status in {NotFound, InternalError} then [] else [ClaimAudit(Op.Release, "", false, status != NoContent)]
    {
      var err := manager.Release(t, user, fault, keepsCompleted);
      status := AnswerClaim(Op.Release, "", false, err);
    }
  }
}
