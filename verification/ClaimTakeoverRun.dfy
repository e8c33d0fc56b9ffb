/**
A run in which a takeover leaves a released claim that no audit record tells of: a claims a task, b takes it over,
and between b's release and b's claim the task manager fails, or the task is removed.
*/
module ClaimTakeoverRun {
  import opened Wrappers
  import opened ClaimTakeover
  import opened ClaimTakeoverSafety

  lemma ReachableStep(s: Sys, step: Step)
    requires Reachable(s)
    ensures Reachable(Apply(s, step))
  {
    var steps :| Exec(INIT, steps) == s;
    assert (steps + [step])[..|steps|] == steps;
    assert Exec(INIT, steps + [step]) == Apply(s, step);
  }

  const A_CLAIMED := Sys(
    map["t" := TaskRecord("a", false)], 1,
    map[0 := Handler("t", "a", false, Answered(None), "", false)],
    [Claimed(0, "t", "a")], [Audit(0, Claim, "", false, false)])

  const B_RELEASED := Sys(
    map["t" := TaskRecord("", false)], 2,
    map[0 := Handler("t", "a", false, Answered(None), "", false), 1 := Handler("t", "b", false, ClaimIt, "a", true)],
    [Claimed(0, "t", "a"), Released(1, "t", "a")], [Audit(0, Claim, "", false, false)])

  lemma AClaims()
    ensures Reachable(A_CLAIMED)
  {
    assert Exec(INIT, []) == INIT;
    var created := Apply(INIT, NewTask("t"));
    var begun := Apply(created, BeginClaim("t", "a"));
    var read := Apply(begun, Call(0, false, false));
    ReachableStep(INIT, NewTask("t"));
    ReachableStep(created, BeginClaim("t", "a"));
    ReachableStep(begun, Call(0, false, false));
    ReachableStep(read, Call(0, false, false));
    assert read == Sys(
      map["t" := TaskRecord("", false)], 1, map[0 := Handler("t", "a", false, ClaimIt, "", false)], [], []);
    assert Apply(read, Call(0, false, false)) == A_CLAIMED;
  }

  lemma BReleases()
    ensures Reachable(B_RELEASED)
  {
    AClaims();
    var b := Handler("t", "b", false, ReadTask, "", false);
    var begun := Apply(A_CLAIMED, BeginClaim("t", "b"));
    assert begun == A_CLAIMED.(next := 2, handlers := A_CLAIMED.handlers[1 := b]);
    var read := Apply(begun, Call(1, false, false));
    assert read == begun.(handlers := begun.handlers[1 := b.(pc := ReleasePrevious, previous := "a")]);
    ReachableStep(A_CLAIMED, BeginClaim("t", "b"));
    ReachableStep(begun, Call(1, false, false));
    ReachableStep(read, Call(1, false, false));
    assert Apply(read, Call(1, false, false)) == B_RELEASED;
  }

  predicate UnauditedRelease(s: Sys, outcome: ClaimError) {
    && 1 in s.handlers && s.handlers[1].pc == Answered(Some(outcome))
    && ReleasedBy(s.events, 1) && !ClaimedBy(s.events, 1) && !AuditedBy(s.audits, 1)
  }

  // The manager failing at that claim answers 500, and the task having gone 404; neither is audited.
  lemma FailureLeavesAReleaseUnaudited()
    ensures
      var failed := Apply(B_RELEASED, Call(1, true, false));
      Reachable(failed) && UnauditedRelease(failed, OtherError)
    ensures
      var gone := Apply(Apply(B_RELEASED, RemoveTask("t")), Call(1, false, false));
      Reachable(gone) && UnauditedRelease(gone, TaskNotFound)
  {
    BReleases();
    ReachableStep(B_RELEASED, Call(1, true, false));
    ReachableStep(B_RELEASED, RemoveTask("t"));
    ReachableStep(Apply(B_RELEASED, RemoveTask("t")), Call(1, false, false));
    ReleaseStands(Apply(B_RELEASED, Call(1, true, false)), OtherError);
    ReleaseStands(Apply(Apply(B_RELEASED, RemoveTask("t")), Call(1, false, false)), TaskNotFound);
  }

  lemma ReleaseStands(s: Sys, outcome: ClaimError)
    requires 1 in s.handlers && s.handlers[1].pc == Answered(Some(outcome))
    requires s.events == B_RELEASED.events && s.audits == B_RELEASED.audits
    ensures UnauditedRelease(s, outcome)
  {
    assert s.events[1] == Released(1, "t", "a");
  }
}
