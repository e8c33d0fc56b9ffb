/**
Claim, takeover and release of a task (internal/tasks/claim_handler.go). A takeover is a release of the
holder it read and then a claim, two atomic calls on the task manager with other users' calls, and the
task's completion or removal, in between.
*/
module ClaimTakeover {
  import opened Wrappers

  type TaskId = string
  type UserId = string

  // claimedBy is "" while nobody holds the claim.
  datatype TaskRecord = TaskRecord(claimedBy: UserId, completed: bool)

  datatype ClaimError = TaskNotFound | ClaimHeld | TaskCompleted | NotClaimHolder | HolderRequired | OtherError

  // ---- The task manager's two operations, each atomic ----

  // A failed call leaves the records as they were. fault is a failure of the manager's own.
  function ClaimTask(tasks: map<TaskId, TaskRecord>, t: TaskId, holder: UserId, fault: bool)
    : Result<map<TaskId, TaskRecord>, ClaimError>
  {
    if fault then Err(OtherError)
    else if holder == "" then Err(HolderRequired)
    else if t !in tasks then Err(TaskNotFound)
    else if tasks[t].completed then Err(TaskCompleted)
    else if tasks[t].claimedBy != "" && tasks[t].claimedBy != holder then Err(ClaimHeld)
    else Ok(tasks[t := tasks[t].(claimedBy := holder)])
  }

  // Whether a completed task's claim can be released is the manager's to say: keepsCompleted is its answer.
  function ReleaseTask(tasks: map<TaskId, TaskRecord>, t: TaskId, holder: UserId, fault: bool, keepsCompleted: bool)
    : Result<map<TaskId, TaskRecord>, ClaimError>
  {
    if fault then Err(OtherError)
    else if holder == "" then Err(HolderRequired)
    else if t !in tasks then Err(TaskNotFound)
    else if tasks[t].completed && keepsCompleted then Err(TaskCompleted)
    else if tasks[t].claimedBy == "" then Ok(tasks)
    else if tasks[t].claimedBy != holder then Err(NotClaimHolder)
    else Ok(tasks[t := tasks[t].(claimedBy := "")])
  }

  // ---- Answers ----

  datatype Op = Claim | Takeover | Release

  // 204, 404, 409, 403, 401 and 500.
  datatype Status = NoContent | NotFound | Conflict | Forbidden | Unauthorized | InternalError

  function StatusOf(outcome: Option<ClaimError>): Status {
    match outcome
    case None => NoContent
    case Some(TaskNotFound) => NotFound
    case Some(ClaimHeld) => Conflict
    case Some(TaskCompleted) => Conflict
    case Some(NotClaimHolder) => Forbidden
    case Some(HolderRequired) => Unauthorized
    case Some(OtherError) => InternalError
  }

  // The metadata auditClaim records; previous is "" when the operation is no takeover.
  datatype Audit = Audit(handler: nat, op: Op, previous: UserId, released: bool, failed: bool)

  function Audits(outcome: Option<ClaimError>): bool {
    outcome.None? || outcome.value in {ClaimHeld, TaskCompleted, NotClaimHolder}
  }

  // ---- Handlers, between two of their calls ----

  datatype Pc = ReadTask | ReleasePrevious | ClaimIt | ReleaseOwn | Answered(outcome: Option<ClaimError>)

  // previous is the holder a takeover read, "" for a plain claim or a release; released is takeover.released.
  datatype Handler = Handler(task: TaskId, user: UserId, releases: bool, pc: Pc, previous: UserId, released: bool)

  // The manager's calls that succeeded, in order.
  datatype Event =
    | Claimed(handler: nat, task: TaskId, user: UserId)
    | Released(handler: nat, task: TaskId, holder: UserId)

  datatype Sys = Sys(
    tasks: map<TaskId, TaskRecord>, next: nat, handlers: map<nat, Handler>, events: seq<Event>, audits: seq<Audit>)

  datatype Step =
    | NewTask(task: TaskId)
    | CompleteTask(task: TaskId)
    | RemoveTask(task: TaskId)
    | BeginClaim(task: TaskId, user: UserId)
    | BeginRelease(task: TaskId, user: UserId)
    | Call(id: nat, fault: bool, keepsCompleted: bool)
    | Lose(id: nat)

  function OpOf(h: Handler): Op {
    if h.releases then Release else if h.previous != "" then Takeover else Claim
  }

  // answerClaim: the answer and, for the outcomes that have one, its audit record.
  function Answer(s: Sys, id: nat, h: Handler, outcome: Option<ClaimError>): Sys {
    s.(handlers := s.handlers[id := h.(pc := Answered(outcome))],
       audits :=
         if Audits(outcome) then s.audits + [Audit(id, OpOf(h), h.previous, h.released, outcome.Some?)]
         else s.audits)
  }

  function Goto(s: Sys, id: nat, h: Handler): Sys {
    s.(handlers := s.handlers[id := h])
  }

  function ErrorOf<T>(r: Result<T, ClaimError>): Option<ClaimError> {
    match r
    case Ok(_) => None
    case Err(e) => Some(e)
  }

  function ApplyCall(s: Sys, id: nat, fault: bool, keepsCompleted: bool): (s': Sys)
    requires id in s.handlers
    ensures s'.handlers.Keys == s.handlers.Keys
  {
    var h := s.handlers[id];
    match h.pc
    case ReadTask =>
      if fault then Answer(s, id, h, Some(OtherError))
      else if h.task !in s.tasks then Answer(s, id, h, Some(TaskNotFound))
      else if h.releases then Goto(s, id, h.(pc := ReleaseOwn))
      else
        var record := s.tasks[h.task];
        // A completed task keeps its claim as the record of who worked it.
        if record.completed then Answer(s, id, h, Some(TaskCompleted))
        else if record.claimedBy != "" && record.claimedBy != h.user then
          Goto(s, id, h.(pc := ReleasePrevious, previous := record.claimedBy))
        else Goto(s, id, h.(pc := ClaimIt))
    case ReleasePrevious =>
      (match ReleaseTask(s.tasks, h.task, h.previous, fault, keepsCompleted)
       case Ok(tasks) =>
         Goto(s, id, h.(pc := ClaimIt, released := true)).(
           tasks := tasks, events := s.events + [Released(id, h.task, h.previous)])
       case Err(e) => Answer(s, id, h, Some(if e == NotClaimHolder then ClaimHeld else e)))
    case ClaimIt =>
      (match ClaimTask(s.tasks, h.task, h.user, fault)
       case Ok(tasks) => Answer(s, id, h, None).(tasks := tasks, events := s.events + [Claimed(id, h.task, h.user)])
       case Err(e) => Answer(s, id, h, Some(e)))
    case ReleaseOwn =>
      (match ReleaseTask(s.tasks, h.task, h.user, fault, keepsCompleted)
       case Ok(tasks) => Answer(s, id, h, None).(tasks := tasks, events := s.events + [Released(id, h.task, h.user)])
       case Err(e) => Answer(s, id, h, Some(e)))
    case Answered(_) => s
  }

  // A caller without a user ID is answered before the task is read. A step that cannot be taken changes nothing.
  function Apply(s: Sys, step: Step): Sys {
    match step
    case NewTask(t) => if t in s.tasks then s else s.(tasks := s.tasks[t := TaskRecord("", false)])
    case CompleteTask(t) => if t in s.tasks then s.(tasks := s.tasks[t := s.tasks[t].(completed := true)]) else s
    case RemoveTask(t) => s.(tasks := s.tasks - {t})
    case BeginClaim(t, user) =>
      var pc := if user == "" then Answered(Some(HolderRequired)) else ReadTask;
      s.(next := s.next + 1, handlers := s.handlers[s.next := Handler(t, user, false, pc, "", false)])
    case BeginRelease(t, user) =>
      var pc := if user == "" then Answered(Some(HolderRequired)) else ReadTask;
      s.(next := s.next + 1, handlers := s.handlers[s.next := Handler(t, user, true, pc, "", false)])
    case Call(id, fault, keepsCompleted) => if id in s.handlers then ApplyCall(s, id, fault, keepsCompleted) else s
    case Lose(id) => s.(handlers := s.handlers - {id})
  }

  function Exec(s: Sys, steps: seq<Step>): Sys {
    if steps == [] then s else Apply(Exec(s, steps[..|steps| - 1]), steps[|steps| - 1])
  }

  const INIT := Sys(map[], 0, map[], [], [])
}
