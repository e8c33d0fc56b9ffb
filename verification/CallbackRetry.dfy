/**
The retry loop of a held callback (external-integration/customs/asycuda/retry.go): a doubling wait, capped,
until the callback is applied, cannot be, or its window is over. Durations and instants are nanoseconds.
*/
module CallbackRetry {
  import opened Basics
  import opened Wrappers

  datatype Timing = Timing(initial: int, max: int, window: int)

  const SECOND := 1_000_000_000
  const DEFAULT_TIMING := Timing(5 * SECOND, 600 * SECOND, 86400 * SECOND)

  datatype CallbackError =
    | InvalidCallback
    | WorkflowNotFoundByEdgeId | CusdecCaseNotRecorded | DispatchNoteNotFoundByEdgeId | CdnCaseNotRecorded
    | DeclarationNotRecorded | CusdecTaskNotParked | CusdecNotFoundByRef
    | DispatchNoteNotRecorded | CdnTaskNotParked | DispatchNoteNotFoundByRef
    | OtherFailure

  predicate IsPermanent(e: CallbackError) {
    e in {InvalidCallback, WorkflowNotFoundByEdgeId, CusdecCaseNotRecorded, DispatchNoteNotFoundByEdgeId,
          CdnCaseNotRecorded}
  }

  // What has a callback held in the first place: that it came before what it answers.
  predicate IsEarly(e: CallbackError) {
    e in {DeclarationNotRecorded, CusdecTaskNotParked, CusdecNotFoundByRef,
          DispatchNoteNotRecorded, CdnTaskNotParked, DispatchNoteNotFoundByRef}
  }

  // A retry is never given up for what a callback was held for: an error is early, or a fault of the moment, or one
  // that no retry can mend, and only one of the three.
  lemma PermanentIsNotEarly(e: CallbackError)
    ensures IsPermanent(e) <==> !IsEarly(e) && e != OtherFailure
  {
  }

  datatype Ending = Applied | CannotApply | GaveUp

  // A sleep of one attempt: when it begins and how long it is asked to last.
  datatype Sleep = Sleep(start: int, wait: int)

  // When a sleep was asked to end.
  function SleptUntil(sleep: Sleep): int {
    sleep.start + sleep.wait
  }

  function Min(a: int, b: int): int {
    if a < b then a else b
  }

  // The wait before attempt n, as the loop computes it.
  function WaitBefore(t: Timing, n: nat): int
    requires n >= 1
  {
    if n == 1 then t.initial else Min(2 * WaitBefore(t, n - 1), t.max)
  }

  function TotalWait(t: Timing, n: nat): int {
    if n == 0 then 0 else TotalWait(t, n - 1) + WaitBefore(t, n)
  }

  // Attempt n fails in a way that a retry may mend.
  predicate Transient(apply: nat -> Option<CallbackError>, n: nat) {
    apply(n).Some? && !IsPermanent(apply(n).value)
  }

  // What the delays of n attempts add up to.
  function TotalDelay(delay: nat -> nat, n: nat): nat {
    if n == 0 then 0 else TotalDelay(delay, n - 1) + delay(n)
  }

  // Each sleep asks for the wait of its attempt; the first begins when the callback is held, and each later one
  // when the attempt before it is over.
  ghost predicate Timed(t: Timing, heldAt: int, delay: nat -> nat, sleeps: seq<Sleep>) {
    && (forall n :: 0 <= n < |sleeps| ==> sleeps[n].wait == WaitBefore(t, n + 1))
    && (|sleeps| > 0 ==> sleeps[0].start == heldAt)
    && (forall n :: 1 <= n < |sleeps| ==> sleeps[n].start == SleptUntil(sleeps[n - 1]) + delay(n))
  }

  // The clock once all the attempts of these sleeps are over.
  function Now(heldAt: int, delay: nat -> nat, sleeps: seq<Sleep>): int {
    if sleeps == [] then heldAt else SleptUntil(sleeps[|sleeps| - 1]) + delay(|sleeps|)
  }

  // That clock: the waits so far, and what the attempts took beyond them.
  lemma {:induction false} NowIs(t: Timing, heldAt: int, delay: nat -> nat, sleeps: seq<Sleep>, n: nat)
    requires n <= |sleeps| && Timed(t, heldAt, delay, sleeps)
    ensures Now(heldAt, delay, sleeps[..n]) == heldAt + TotalWait(t, n) + TotalDelay(delay, n)
  {
    if n > 0 {
      NowIs(t, heldAt, delay, sleeps, n - 1);
      assert n > 1 ==> sleeps[..n - 1][n - 2] == sleeps[n - 2];
    }
  }

  lemma {:induction false} NoDelay(delay: nat -> nat, n: nat)
    requires forall k :: 1 <= k <= n ==> delay(k) == 0
    ensures TotalDelay(delay, n) == 0
  {
    if n > 0 {
      NoDelay(delay, n - 1);
    }
  }

  // apply(n) is the outcome of attempt n, None being success; delay(n) what the clock gains over that
  // attempt beyond the wait it asked for: oversleeping, and the apply itself.
  method Retry(t: Timing, heldAt: int, apply: nat -> Option<CallbackError>, delay: nat -> nat)
    returns (ending: Ending, attempts: nat, sleeps: seq<Sleep>)
    requires t.initial > 0 && t.max > 0
    ensures attempts >= 1 && |sleeps| == attempts && Timed(t, heldAt, delay, sleeps)
    ensures forall n :: 1 <= n < attempts ==> Transient(apply, n)
    ensures ending ==
      if apply(attempts).None? then Applied
      else if IsPermanent(apply(attempts).value) then CannotApply
      else GaveUp
    // Every sleep but the first was to end within the window as it began, and it gives up only when the next
    // would not.
    ensures forall n :: 1 <= n < attempts ==> SleptUntil(sleeps[n]) <= heldAt + t.window
    ensures ending == GaveUp ==> Now(heldAt, delay, sleeps) + WaitBefore(t, attempts + 1) > heldAt + t.window
    // So in waits and delays: each attempt but the first left room for its wait, and after giving up none is left.
    ensures forall n :: 1 <= n < attempts ==> TotalWait(t, n + 1) + TotalDelay(delay, n) <= t.window
    ensures ending == GaveUp ==> TotalWait(t, attempts + 1) + TotalDelay(delay, attempts) > t.window
    ensures attempts > 1 ==> TotalWait(t, attempts) <= t.window
  {
    var now := heldAt;
    var giveUpAt := heldAt + t.window;
    var wait := t.initial;
    attempts := 1;
    sleeps := [];
    while true
      invariant attempts >= 1 && |sleeps| == attempts - 1
      invariant wait == WaitBefore(t, attempts) && wait > 0
      invariant Timed(t, heldAt, delay, sleeps) && now == Now(heldAt, delay, sleeps)
      invariant forall n :: 1 <= n < attempts - 1 ==> SleptUntil(sleeps[n]) <= giveUpAt
      invariant forall n :: 1 <= n < attempts ==> Transient(apply, n)
      invariant attempts > 1 ==> now + wait <= giveUpAt
      decreases attempts <= 1, giveUpAt - now
    {
      sleeps := sleeps + [Sleep(now, wait)];
      now := now + wait + delay(attempts);
      var err := apply(attempts);
      if err.None? {
        ending := Applied;
        break;
      }
      if IsPermanent(err.value) {
        ending := CannotApply;
        break;
      }
      wait := Min(2 * wait, t.max);
      if now + wait > giveUpAt {
        ending := GaveUp;
        break;
      }
      attempts := attempts + 1;
    }
    WindowInWaits(t, heldAt, delay, sleeps);
  }

  // What the sleeps say of the window, in waits and delays.
  lemma WindowInWaits(t: Timing, heldAt: int, delay: nat -> nat, sleeps: seq<Sleep>)
    requires |sleeps| > 0 && Timed(t, heldAt, delay, sleeps)
    requires forall n :: 1 <= n < |sleeps| ==> SleptUntil(sleeps[n]) <= heldAt + t.window
    ensures forall n :: 1 <= n < |sleeps| ==> TotalWait(t, n + 1) + TotalDelay(delay, n) <= t.window
    ensures Now(heldAt, delay, sleeps) == heldAt + TotalWait(t, |sleeps|) + TotalDelay(delay, |sleeps|)
  {
    forall n | 1 <= n < |sleeps|
      ensures TotalWait(t, n + 1) + TotalDelay(delay, n) <= t.window
    {
      NowIs(t, heldAt, delay, sleeps, n);
      assert sleeps[..n][n - 1] == sleeps[n - 1];
    }
    NowIs(t, heldAt, delay, sleeps, |sleeps|);
    assert sleeps[..|sleeps|] == sleeps;
  }

  // The wait doubles from Initial and is capped at Max; only the first is free of the cap.
  lemma {:induction false} WaitIsCappedDoubling(t: Timing, n: nat)
    requires t.initial > 0 && t.max > 0 && n >= 1
    ensures WaitBefore(t, n) == if n == 1 then t.initial else Min(t.initial * Pow2(n - 1), t.max)
    ensures t.initial <= t.max ==> WaitBefore(t, n) == Min(t.initial * Pow2(n - 1), t.max)
  {
    if n == 1 {
      assert t.initial * Pow2(0) == t.initial;
    } else {
      WaitIsCappedDoubling(t, n - 1);
      DoublingIs(t.initial, n - 1);
      if n == 2 {
        assert t.initial * Pow2(0) == t.initial;
      }
    }
  }

  lemma DoublingIs(a: nat, n: nat)
    requires n >= 1
    ensures a * Pow2(n) == 2 * (a * Pow2(n - 1))
    ensures a * Pow2(n - 1) >= 0
  {
    var p := Pow2(n - 1);
    assert a * (2 * p) == 2 * (a * p);
  }

  // Nothing overflows while both settings are under half a 64-bit duration: doubling a wait still fits.
  lemma {:induction false} DoublingFits(t: Timing, n: nat)
    requires 0 < t.initial < 0x4000_0000_0000_0000 && 0 < t.max < 0x4000_0000_0000_0000 && n >= 1
    ensures 0 < WaitBefore(t, n) && 2 * WaitBefore(t, n) < 0x8000_0000_0000_0000
  {
    if n > 1 {
      DoublingFits(t, n - 1);
    }
  }

  lemma {:induction false} TotalWaitGrows(t: Timing, m: nat, n: nat)
    requires t.initial > 0 && t.max > 0 && m <= n
    ensures TotalWait(t, m) <= TotalWait(t, n)
    decreases n
  {
    if m < n {
      WaitIsPositive(t, n);
      TotalWaitGrows(t, m, n - 1);
    }
  }

  lemma {:induction false} WaitIsPositive(t: Timing, n: nat)
    requires t.initial > 0 && t.max > 0 && n >= 1
    ensures WaitBefore(t, n) > 0
  {
    if n > 1 {
      WaitIsPositive(t, n - 1);
    }
  }

  // From the eighth attempt on the default wait is the cap of ten minutes, after 635 seconds of waits.
  lemma {:induction false} DefaultWaits(n: nat)
    requires n >= 8
    ensures WaitBefore(DEFAULT_TIMING, n) == 600 * SECOND
    ensures TotalWait(DEFAULT_TIMING, n) == (635 + 600 * (n - 7)) * SECOND
  {
    var t := DEFAULT_TIMING;
    if n > 8 {
      DefaultWaits(n - 1);
    } else {
      assert WaitBefore(t, 2) == 10 * SECOND;
      assert WaitBefore(t, 3) == 20 * SECOND;
      assert WaitBefore(t, 4) == 40 * SECOND;
      assert WaitBefore(t, 5) == 80 * SECOND;
      assert WaitBefore(t, 6) == 160 * SECOND;
      assert WaitBefore(t, 7) == 320 * SECOND;
      assert TotalWait(t, 1) == 5 * SECOND;
      assert TotalWait(t, 2) == 15 * SECOND;
      assert TotalWait(t, 3) == 35 * SECOND;
      assert TotalWait(t, 4) == 75 * SECOND;
      assert TotalWait(t, 5) == 155 * SECOND;
      assert TotalWait(t, 6) == 315 * SECOND;
      assert TotalWait(t, 7) == 635 * SECOND;
    }
  }

  // The window bounds the attempts: those whose waits fit in it are at most 149 with the default timing.
  lemma DefaultAttemptsBound(attempts: nat)
    requires attempts >= 1
    ensures TotalWait(DEFAULT_TIMING, attempts) <= DEFAULT_TIMING.window <==> attempts <= 149
  {
    DefaultWaits(149);
    DefaultWaits(150);
    if attempts <= 149 {
      TotalWaitGrows(DEFAULT_TIMING, attempts, 149);
    } else {
      TotalWaitGrows(DEFAULT_TIMING, 150, attempts);
    }
  }

  // With the default timing a held callback is tried at most 149 times. It is given up at the first attempt after
  // which the waits and delays so far leave no room for the next wait in a day, and never before; so exactly at
  // the 149th when nothing but the waits takes time.
  method RetryByDefault(heldAt: int, apply: nat -> Option<CallbackError>, delay: nat -> nat)
    returns (ending: Ending, attempts: nat)
    ensures 1 <= attempts <= 149
    ensures forall n :: 1 <= n < attempts ==> Transient(apply, n)
    ensures ending == Applied <==> apply(attempts).None?
    ensures ending == CannotApply <==> apply(attempts).Some? && IsPermanent(apply(attempts).value)
    ensures forall n :: 1 <= n < attempts ==>
      TotalWait(DEFAULT_TIMING, n + 1) + TotalDelay(delay, n) <= DEFAULT_TIMING.window
    ensures ending == GaveUp ==>
      TotalWait(DEFAULT_TIMING, attempts + 1) + TotalDelay(delay, attempts) > DEFAULT_TIMING.window
    ensures ending == GaveUp && (forall n :: 1 <= n <= attempts ==> delay(n) == 0) ==> attempts == 149
  {
    var sleeps;
    ending, attempts, sleeps := Retry(DEFAULT_TIMING, heldAt, apply, delay);
    DefaultAttemptsBound(attempts);
    DefaultAttemptsBound(attempts + 1);
    if forall n :: 1 <= n <= attempts ==> delay(n) == 0 {
      NoDelay(delay, attempts);
    }
  }
}
