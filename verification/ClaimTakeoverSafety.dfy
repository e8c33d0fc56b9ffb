/**
What a takeover promises under any interleaving of users: whose claim it can remove, what a 204 means,
and what its audit record says.
*/
module ClaimTakeoverSafety {
  import opened Wrappers
  import opened ClaimTakeover

  predicate ReleasedBy(events: seq<Event>, id: nat) {
    exists i :: 0 <= i < |events| && events[i].Released? && events[i].handler == id
  }

  predicate ClaimedBy(events: seq<Event>, id: nat) {
    exists i :: 0 <= i < |events| && events[i].Claimed? && events[i].handler == id
  }

  predicate AuditedBy(audits: seq<Audit>, id: nat) {
    exists i :: 0 <= i < |audits| && audits[i].handler == id
  }

  ghost predicate HandlerOk(s: Sys, id: nat, h: Handler) {
    && (!h.releases ==> (h.released <==> ReleasedBy(s.events, id)))
    && (h.releases ==> !h.released && h.previous == "")
    && (h.releases && !h.pc.Answered? ==> !ReleasedBy(s.events, id))
    && (h.releases ==> (ReleasedBy(s.events, id) <==> h.pc == Answered(None)))
    && (ClaimedBy(s.events, id) <==> !h.releases && h.pc == Answered(None))
    && (h.pc == ReadTask ==> h.previous == "")
    && (h.pc == ReleasePrevious ==> !h.releases && h.previous != "" && h.previous != h.user && !h.released)
    && (h.pc == ClaimIt ==> !h.releases && (h.released <==> h.previous != ""))
    && (h.pc == ReleaseOwn ==> h.releases)
    && (h.pc != Answered(Some(HolderRequired)) ==> h.user != "")
    && (AuditedBy(s.audits, id) <==> h.pc.Answered? && Audits(h.pc.outcome))
    && (h.released ==> h.previous != "")
    && (!h.releases ==> h.pc != Answered(Some(NotClaimHolder)))
  }

  ghost predicate Inv(s: Sys) {
    && (forall id :: id in s.handlers ==> id < s.next && HandlerOk(s, id, s.handlers[id]))
    && (forall i :: 0 <= i < |s.events| ==> s.events[i].handler < s.next)
    && (forall i :: 0 <= i < |s.audits| ==> s.audits[i].handler < s.next && AuditOk(s, s.audits[i]))
  }

  // An audit record says exactly what its handler's calls did.
  ghost predicate AuditOk(s: Sys, a: Audit) {
    && (a.op != Release ==>
          && (a.released <==> ReleasedBy(s.events, a.handler))
          && (!a.failed <==> ClaimedBy(s.events, a.handler)))
    && (a.op == Takeover <==> a.previous != "")
    && (a.op == Release ==> !a.released && (!a.failed <==> ReleasedBy(s.events, a.handler)))
  }

  lemma AppendEvent(events: seq<Event>, e: Event)
    ensures forall id :: ReleasedBy(events + [e], id) <==> ReleasedBy(events, id) || (e.Released? && e.handler == id)
    ensures forall id :: ClaimedBy(events + [e], id) <==> ClaimedBy(events, id) || (e.Claimed? && e.handler == id)
  {
    var after := events + [e];
    assert after[|events|] == e;
    forall id
      ensures ReleasedBy(events, id) ==> ReleasedBy(after, id)
      ensures ClaimedBy(events, id) ==> ClaimedBy(after, id)
    {
      if ReleasedBy(events, id) {
        var i :| 0 <= i < |events| && events[i].Released? && events[i].handler == id;
        assert after[i] == events[i];
      }
      if ClaimedBy(events, id) {
        var i :| 0 <= i < |events| && events[i].Claimed? && events[i].handler == id;
        assert after[i] == events[i];
      }
    }
  }

  lemma AppendAudit(audits: seq<Audit>, a: Audit)
    ensures forall id :: AuditedBy(audits + [a], id) <==> AuditedBy(audits, id) || a.handler == id
  {
    var after := audits + [a];
    assert after[|audits|] == a;
    forall id
      ensures AuditedBy(audits, id) ==> AuditedBy(after, id)
    {
      if AuditedBy(audits, id) {
        var i :| 0 <= i < |audits| && audits[i].handler == id;
        assert after[i] == audits[i];
      }
    }
  }

  // The event and the audit record a call adds, if it adds one.
  function NewEvent(s: Sys, id: nat, fault: bool, keepsCompleted: bool): Option<Event>
    requires id in s.handlers
  {
    var h := s.handlers[id];
    match h.pc
    case ReleasePrevious =>
      if ReleaseTask(s.tasks, h.task, h.previous, fault, keepsCompleted).Ok?
      then Some(Released(id, h.task, h.previous)) else None
    case ClaimIt => if ClaimTask(s.tasks, h.task, h.user, fault).Ok? then Some(Claimed(id, h.task, h.user)) else None
    case ReleaseOwn =>
      if ReleaseTask(s.tasks, h.task, h.user, fault, keepsCompleted).Ok?
      then Some(Released(id, h.task, h.user)) else None
    case _ => None
  }

  lemma CallLogs(s: Sys, id: nat, fault: bool, keepsCompleted: bool)
    requires id in s.handlers
    ensures
      var s', e := ApplyCall(s, id, fault, keepsCompleted), NewEvent(s, id, fault, keepsCompleted);
      var h' := s'.handlers[id];
      && s'.handlers.Keys == s.handlers.Keys && s'.next == s.next
      && (forall other :: other in s.handlers && other != id ==> s'.handlers[other] == s.handlers[other])
      && s'.events == (if e.Some? then s.events + [e.value] else s.events)
      && s'.audits ==
         if !s.handlers[id].pc.Answered? && h'.pc.Answered? && Audits(h'.pc.outcome)
         then s.audits + [Audit(id, OpOf(h'), h'.previous, h'.released, h'.pc.outcome.Some?)]
         else s.audits
  {
    match s.handlers[id].pc
    case ReadTask =>
    case ReleasePrevious =>
    case ClaimIt =>
    case ReleaseOwn =>
    case Answered(_) =>
  }

  lemma CallKeepsOwn(s: Sys, id: nat, fault: bool, keepsCompleted: bool)
    requires id in s.handlers && HandlerOk(s, id, s.handlers[id])
    ensures HandlerOk(ApplyCall(s, id, fault, keepsCompleted), id, ApplyCall(s, id, fault, keepsCompleted).handlers[id])
  {
    var s', e := ApplyCall(s, id, fault, keepsCompleted), NewEvent(s, id, fault, keepsCompleted);
    CallLogs(s, id, fault, keepsCompleted);
    if e.Some? {
      AppendEvent(s.events, e.value);
    }
    if s'.audits != s.audits {
      AppendAudit(s.audits, s'.audits[|s.audits|]);
    }
  }

  lemma CallKeepsInv(s: Sys, id: nat, fault: bool, keepsCompleted: bool)
    requires Inv(s) && id in s.handlers
    ensures Inv(ApplyCall(s, id, fault, keepsCompleted))
  {
    var s', e := ApplyCall(s, id, fault, keepsCompleted), NewEvent(s, id, fault, keepsCompleted);
    CallKeepsOwn(s, id, fault, keepsCompleted);
    CallLogs(s, id, fault, keepsCompleted);
    if e.Some? {
      AppendEvent(s.events, e.value);
    }
    if s'.audits != s.audits {
      AppendAudit(s.audits, s'.audits[|s.audits|]);
    }
    CallKeepsAudits(s, id, fault, keepsCompleted);
  }

  lemma CallKeepsAudits(s: Sys, id: nat, fault: bool, keepsCompleted: bool)
    requires Inv(s) && id in s.handlers
    ensures
      var s' := ApplyCall(s, id, fault, keepsCompleted);
      forall i :: 0 <= i < |s'.audits| ==> s'.audits[i].handler < s'.next && AuditOk(s', s'.audits[i])
  {
    var s', e := ApplyCall(s, id, fault, keepsCompleted), NewEvent(s, id, fault, keepsCompleted);
    CallKeepsOwn(s, id, fault, keepsCompleted);
    CallLogs(s, id, fault, keepsCompleted);
    if e.Some? {
      AppendEvent(s.events, e.value);
    }
    forall i | 0 <= i < |s'.audits|
      ensures s'.audits[i].handler < s'.next && AuditOk(s', s'.audits[i])
    {
      if i < |s.audits| {
        assert AuditedBy(s.audits, id) ==> s.handlers[id].pc.Answered?;
        assert s.audits[i].handler == id ==> AuditedBy(s.audits, id);
        assert AuditOk(s, s.audits[i]);
      }
    }
  }

  lemma ApplyKeepsInv(s: Sys, step: Step)
    requires Inv(s)
    ensures Inv(Apply(s, step))
  {
    if step.Call? && step.id in s.handlers {
      CallKeepsInv(s, step.id, step.fault, step.keepsCompleted);
    } else {
      var s' := Apply(s, step);
      forall i | 0 <= i < |s'.audits|
        ensures AuditOk(s', s'.audits[i])
      {
        assert AuditOk(s, s.audits[i]);
      }
      forall id | id in s'.handlers
        ensures HandlerOk(s', id, s'.handlers[id])
      {
        if step.BeginClaim? || step.BeginRelease? {
          assert !ReleasedBy(s.events, s.next) && !ClaimedBy(s.events, s.next) && !AuditedBy(s.audits, s.next);
        }
        assert id in s.handlers && s'.handlers[id] == s.handlers[id] ==> HandlerOk(s, id, s.handlers[id]);
      }
    }
  }

  lemma {:induction false} EveryRunKeepsInv(steps: seq<Step>)
    ensures Inv(Exec(INIT, steps))
  {
    if steps != [] {
      EveryRunKeepsInv(steps[..|steps| - 1]);
      ApplyKeepsInv(Exec(INIT, steps[..|steps| - 1]), steps[|steps| - 1]);
    }
  }

  ghost predicate Reachable(s: Sys) {
    exists steps :: Exec(INIT, steps) == s
  }

  lemma ReachableInv(s: Sys)
    requires Reachable(s)
    ensures Inv(s)
  {
    var steps :| Exec(INIT, steps) == s;
    EveryRunKeepsInv(steps);
  }

  // ---- The promises ----

  // Whoever held a claim that a claim or takeover changes is the holder it read: a plain claim changes
  // only a free claim, or one its own caller holds.
  lemma OnlyTheHolderReadLosesTheClaim(s: Sys, id: nat, fault: bool, keepsCompleted: bool, t: TaskId)
    requires Reachable(s) && id in s.handlers && !s.handlers[id].releases && t in s.tasks
    ensures
      var s' := ApplyCall(s, id, fault, keepsCompleted);
      var h := s.handlers[id];
      && t in s'.tasks
      && (s'.tasks[t] != s.tasks[t] ==>
            && t == h.task
            && (s.tasks[t].claimedBy == "" || (h.pc == ReleasePrevious && s.tasks[t].claimedBy == h.previous))
            && s'.tasks[t].claimedBy == (if h.pc == ReleasePrevious then "" else h.user))
  {
    ReachableInv(s);
    assert HandlerOk(s, id, s.handlers[id]);
  }

  // The holder a takeover acts on is the one the task record named when it was read.
  lemma PreviousIsTheHolderRead(s: Sys, id: nat, fault: bool, keepsCompleted: bool)
    requires Inv(s) && id in s.handlers
    requires s.handlers[id].previous == "" && ApplyCall(s, id, fault, keepsCompleted).handlers[id].previous != ""
    ensures
      var h, h' := s.handlers[id], ApplyCall(s, id, fault, keepsCompleted).handlers[id];
      && h.pc == ReadTask && h.task in s.tasks && !s.tasks[h.task].completed
      && h'.previous == s.tasks[h.task].claimedBy && h'.previous != h.user && OpOf(h') == Takeover
  {
  }

  // A claim or takeover that is answered 204 had its ClaimTask leave the caller holding the open task's claim.
  lemma NoContentMeansHeld(s: Sys, id: nat, fault: bool, keepsCompleted: bool)
    requires Reachable(s) && id in s.handlers && !s.handlers[id].releases && !s.handlers[id].pc.Answered?
    ensures
      var s' := ApplyCall(s, id, fault, keepsCompleted);
      var h, h' := s.handlers[id], s'.handlers[id];
      h'.pc.Answered? && StatusOf(h'.pc.outcome) == NoContent ==>
        && h.pc == ClaimIt && h.task in s'.tasks
        && s'.tasks[h.task] == TaskRecord(h.user, false)
        && ClaimedBy(s'.events, id)
  {
    ReachableInv(s);
    assert HandlerOk(s, id, s.handlers[id]);
    var h, s' := s.handlers[id], ApplyCall(s, id, fault, keepsCompleted);
    if h.pc == ClaimIt && s'.handlers[id].pc == Answered(None) {
      assert s'.events[|s.events|] == Claimed(id, h.task, h.user);
    }
  }

  // previous_claim_released, in every audit record ever written, is whether that takeover's ReleaseTask
  // succeeded; its success is whether its ClaimTask did.
  lemma AuditSaysWhatWasReleased(s: Sys, i: nat)
    requires Reachable(s) && i < |s.audits| && s.audits[i].op == Takeover
    ensures
      var a := s.audits[i];
      && (a.released <==> ReleasedBy(s.events, a.handler))
      && (!a.failed <==> ClaimedBy(s.events, a.handler))
      && a.previous != ""
  {
    ReachableInv(s);
    assert AuditOk(s, s.audits[i]);
  }

  // Which takeovers leave that record. One that has released the previous claim and is about to make its own is
  // audited exactly when the manager does not fail and the task is still there: then its claim is applied or
  // refused. Otherwise the release goes unrecorded.
  lemma ReleasedTakeoverIsAuditedIff(s: Sys, id: nat, fault: bool, keepsCompleted: bool)
    requires Reachable(s) && id in s.handlers && s.handlers[id].released && s.handlers[id].pc == ClaimIt
    ensures
      var s' := ApplyCall(s, id, fault, keepsCompleted);
      && s'.handlers[id].pc.Answered? && ReleasedBy(s'.events, id)
      && (AuditedBy(s'.audits, id) <==> !fault && s.handlers[id].task in s.tasks)
  {
    ReachableInv(s);
    assert HandlerOk(s, id, s.handlers[id]);
    CallKeepsOwn(s, id, fault, keepsCompleted);
  }

  lemma AuditedStatuses(outcome: Option<ClaimError>)
    requires outcome != Some(NotClaimHolder)
    ensures Audits(outcome) <==> StatusOf(outcome) == NoContent || StatusOf(outcome) == Conflict
  {
  }

  // Once it is answered, its answer tells: 204 and 409 are recorded, any other is not.
  lemma ReleasedTakeoverIsAuditedByAnswer(s: Sys, id: nat)
    requires Reachable(s) && id in s.handlers && s.handlers[id].released && s.handlers[id].pc.Answered?
    ensures
      var status := StatusOf(s.handlers[id].pc.outcome);
      AuditedBy(s.audits, id) <==> status == NoContent || status == Conflict
  {
    ReachableInv(s);
    assert HandlerOk(s, id, s.handlers[id]);
    AuditedStatuses(s.handlers[id].pc.outcome);
  }

  // A release removes only its own caller's claim, and is answered 204 exactly when it succeeded.
  lemma ReleaseIsOnesOwn(s: Sys, id: nat, fault: bool, keepsCompleted: bool)
    requires Reachable(s) && id in s.handlers && s.handlers[id].releases
    ensures
      var s' := ApplyCall(s, id, fault, keepsCompleted);
      var h := s.handlers[id];
      && s'.tasks.Keys == s.tasks.Keys
      && (forall t :: t in s.tasks && s'.tasks[t] != s.tasks[t] ==>
            t == h.task && s.tasks[t].claimedBy == h.user && s'.tasks[t].claimedBy == "")
      && (s'.handlers[id].pc == Answered(None) <==> ReleasedBy(s'.events, id))
  {
    ReachableInv(s);
    assert HandlerOk(s, id, s.handlers[id]);
    CallKeepsOwn(s, id, fault, keepsCompleted);
  }

  // A caller without a user ID is answered 401 and changes nothing.
  lemma NamelessIsUnauthorized(s: Sys, task: TaskId, releases: bool)
    requires Reachable(s)
    ensures
      var s' := Apply(s, if releases then BeginRelease(task, "") else BeginClaim(task, ""));
      && s.next in s'.handlers && s'.handlers[s.next].pc.Answered?
      && StatusOf(s'.handlers[s.next].pc.outcome) == Unauthorized
      && s'.tasks == s.tasks && s'.audits == s.audits && s'.events == s.events
  {
  }
}
