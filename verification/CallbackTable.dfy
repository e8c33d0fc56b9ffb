/**
The table of held callbacks (external-integration/customs/asycuda/retry.go): schedule calls and retry
goroutines interleaving on the pending map and the wait group. A callback is its own key: the hash that
names it is taken to be injective.
*/
module CallbackTable {
  datatype Callback = Callback(eventType: string, body: string)

  // One schedule call and, once it starts one, its goroutine. Deleting and Leaving are the deferred
  // pending.Delete and wg.Done, which also run when apply panicked.
  datatype Pc = Storing | Adding | Starting | Retrying | Deleting | Leaving | Gone | Joined

  // applied counts the worker's successful applies.
  datatype Worker = Worker(callback: Callback, pc: Pc, applied: nat)

  datatype Attempt = Succeeds | CannotApply | FailsForNow | Expires | Panics

  datatype Sys = Sys(pending: set<Callback>, group: int, next: nat, workers: map<nat, Worker>)

  datatype Step = Schedule(callback: Callback) | Advance(id: nat, attempt: Attempt)

  const INIT := Sys({}, 0, 0, map[])

  function Goto(s: Sys, id: nat, pc: Pc): Sys
    requires id in s.workers
  {
    s.(workers := s.workers[id := s.workers[id].(pc := pc)])
  }

  function Apply(s: Sys, step: Step): Sys {
    match step
    case Schedule(cb) => s.(next := s.next + 1, workers := s.workers[s.next := Worker(cb, Storing, 0)])
    case Advance(id, attempt) =>
      if id !in s.workers then s
      else
        var w := s.workers[id];
        match w.pc
        case Storing =>
          // LoadOrStore: a redelivery joins the retry its callback already has.
          if w.callback in s.pending then Goto(s, id, Joined)
          else Goto(s, id, Adding).(pending := s.pending + {w.callback})
        case Adding => Goto(s, id, Starting).(group := s.group + 1)
        case Starting => Goto(s, id, Retrying)
        case Retrying =>
          (match attempt
           case Succeeds => s.(workers := s.workers[id := w.(pc := Deleting, applied := w.applied + 1)])
           case FailsForNow => s
           case _ => Goto(s, id, Deleting))
        case Deleting => Goto(s, id, Leaving).(pending := s.pending - {w.callback})
        case Leaving => Goto(s, id, Gone).(group := s.group - 1)
        case Gone => s
        case Joined => s
  }

  function Exec(s: Sys, steps: seq<Step>): Sys {
    if steps == [] then s else Apply(Exec(s, steps[..|steps| - 1]), steps[|steps| - 1])
  }

  // A retry is live from the store of its key until its delete.
  predicate Live(w: Worker) {
    w.pc in {Adding, Starting, Retrying, Deleting}
  }

  predicate InGroup(w: Worker) {
    w.pc in {Starting, Retrying, Deleting, Leaving}
  }

  function Group(s: Sys): set<nat> {
    set id | id in s.workers && InGroup(s.workers[id])
  }

  predicate LiveRetryOf(s: Sys, cb: Callback, id: nat) {
    id in s.workers && Live(s.workers[id]) && s.workers[id].callback == cb
  }

  predicate AppliedOnce(w: Worker) {
    w.applied <= 1 && (w.applied == 1 ==> w.pc in {Deleting, Leaving, Gone})
  }

  ghost predicate Inv(s: Sys) {
    && (forall id :: id in s.workers ==> id < s.next)
    && (forall id :: id in s.workers && Live(s.workers[id]) ==> s.workers[id].callback in s.pending)
    && (forall cb :: cb in s.pending ==> exists id :: LiveRetryOf(s, cb, id))
    && (forall cb, i, j :: LiveRetryOf(s, cb, i) && LiveRetryOf(s, cb, j) ==> i == j)
    && s.group == |Group(s)|
    && (forall id :: id in s.workers ==> AppliedOnce(s.workers[id]))
  }

  lemma AdvanceKeepsPending(s: Sys, id: nat, attempt: Attempt)
    requires Inv(s) && id in s.workers
    ensures
      var s' := Apply(s, Advance(id, attempt));
      forall cb :: cb in s'.pending ==> exists i :: LiveRetryOf(s', cb, i)
  {
    var s' := Apply(s, Advance(id, attempt));
    forall cb | cb in s'.pending
      ensures exists i :: LiveRetryOf(s', cb, i)
    {
      if cb in s.pending {
        var i :| LiveRetryOf(s, cb, i);
        assert i != id || s.workers[id].pc != Deleting;
        assert LiveRetryOf(s', cb, i);
      } else {
        assert LiveRetryOf(s', cb, id);
      }
    }
  }

  lemma AdvanceKeepsLivePending(s: Sys, id: nat, attempt: Attempt)
    requires Inv(s) && id in s.workers
    ensures
      var s' := Apply(s, Advance(id, attempt));
      forall i :: i in s'.workers && Live(s'.workers[i]) ==> s'.workers[i].callback in s'.pending
  {
    var s' := Apply(s, Advance(id, attempt));
    forall i | i in s'.workers && Live(s'.workers[i])
      ensures s'.workers[i].callback in s'.pending
    {
      if i != id {
        assert LiveRetryOf(s, s.workers[i].callback, i);
        assert Live(s.workers[id]) ==> LiveRetryOf(s, s.workers[id].callback, id);
      }
    }
  }

  lemma AdvanceKeepsOneRetry(s: Sys, id: nat, attempt: Attempt)
    requires Inv(s) && id in s.workers
    ensures
      var s' := Apply(s, Advance(id, attempt));
      forall cb, i, j :: LiveRetryOf(s', cb, i) && LiveRetryOf(s', cb, j) ==> i == j
  {
    var s' := Apply(s, Advance(id, attempt));
    forall cb, i | LiveRetryOf(s', cb, i)
      ensures LiveRetryOf(s, cb, i) || (i == id && cb !in s.pending)
    {
    }
    assert forall cb, i :: LiveRetryOf(s, cb, i) ==> cb in s.pending;
  }

  lemma AdvanceKeepsApplied(s: Sys, id: nat, attempt: Attempt)
    requires Inv(s) && id in s.workers
    ensures
      var s' := Apply(s, Advance(id, attempt));
      && (forall i :: i in s'.workers ==> i < s'.next)
      && (forall i :: i in s'.workers ==> AppliedOnce(s'.workers[i]))
  {
    assert AppliedOnce(s.workers[id]);
  }

  function GroupWithout(s: Sys, id: nat): set<nat> {
    set i | i in s.workers && InGroup(s.workers[i]) && i != id
  }

  lemma GroupSplit(s: Sys, id: nat)
    requires id in s.workers
    ensures |Group(s)| == |GroupWithout(s, id)| + if InGroup(s.workers[id]) then 1 else 0
  {
    var others := GroupWithout(s, id);
    if InGroup(s.workers[id]) {
      assert Group(s) == others + {id};
    } else {
      assert Group(s) == others;
    }
  }

  lemma AdvanceKeepsGroup(s: Sys, id: nat, attempt: Attempt)
    requires Inv(s) && id in s.workers
    ensures Apply(s, Advance(id, attempt)).group == |Group(Apply(s, Advance(id, attempt)))|
  {
    var s' := Apply(s, Advance(id, attempt));
    GroupSplit(s, id);
    GroupSplit(s', id);
    assert GroupWithout(s', id) == GroupWithout(s, id);
  }

  lemma ApplyKeepsInv(s: Sys, step: Step)
    requires Inv(s)
    ensures Inv(Apply(s, step))
  {
    var s' := Apply(s, step);
    match step
    case Schedule(cb) =>
      assert Group(s') == Group(s);
      forall c | c in s'.pending
        ensures exists i :: LiveRetryOf(s', c, i)
      {
        var i :| LiveRetryOf(s, c, i);
        assert LiveRetryOf(s', c, i);
      }
      assert forall c, i :: LiveRetryOf(s', c, i) ==> LiveRetryOf(s, c, i);
    case Advance(id, attempt) =>
      if id in s.workers {
        AdvanceKeepsPending(s, id, attempt);
        AdvanceKeepsGroup(s, id, attempt);
        AdvanceKeepsLivePending(s, id, attempt);
        AdvanceKeepsOneRetry(s, id, attempt);
        AdvanceKeepsApplied(s, id, attempt);
      }
  }

  lemma {:induction false} EveryRunKeepsInv(steps: seq<Step>)
    ensures Inv(Exec(INIT, steps))
  {
    if steps != [] {
      EveryRunKeepsInv(steps[..|steps| - 1]);
      ApplyKeepsInv(Exec(INIT, steps[..|steps| - 1]), steps[|steps| - 1]);
    }
  }

  // ---- The promises ----

  // A key is pending exactly while a retry of it is live, and then just one is.
  lemma PendingIffLive(steps: seq<Step>, cb: Callback)
    ensures
      var s := Exec(INIT, steps);
      && (cb in s.pending <==> exists id :: LiveRetryOf(s, cb, id))
      && (forall i, j :: LiveRetryOf(s, cb, i) && LiveRetryOf(s, cb, j) ==> i == j)
  {
    EveryRunKeepsInv(steps);
  }

  // The wait group counts the retries from their start to their end, panicking ones included: it is zero
  // exactly when none is left, and a wait that saw zero has left no key pending but those being started.
  lemma GroupCountsRetries(steps: seq<Step>)
    ensures
      var s := Exec(INIT, steps);
      && s.group == |set id | id in s.workers && InGroup(s.workers[id])|
      && (s.group == 0 <==> forall id :: id in s.workers ==> !InGroup(s.workers[id]))
      && (s.group == 0 ==>
            forall cb :: cb in s.pending ==> exists id :: LiveRetryOf(s, cb, id) && s.workers[id].pc == Adding)
  {
    var s := Exec(INIT, steps);
    EveryRunKeepsInv(steps);
    assert Group(s) == set id | id in s.workers && InGroup(s.workers[id]);
    if s.group == 0 {
      forall id | id in s.workers
        ensures !InGroup(s.workers[id])
      {
        assert id !in Group(s);
      }
    } else {
      var id :| id in Group(s);
    }
  }

  // A retry applies its callback at most once, and nothing of it runs after that.
  lemma AppliedAtMostOnce(steps: seq<Step>, id: nat)
    requires id in Exec(INIT, steps).workers
    ensures
      var w := Exec(INIT, steps).workers[id];
      w.applied <= 1 && (w.applied == 1 ==> w.pc != Retrying)
  {
    EveryRunKeepsInv(steps);
  }

  // A redelivery joins the retry its callback has, and starts one exactly when it has none.
  lemma RedeliveryJoins(steps: seq<Step>, id: nat, attempt: Attempt)
    requires id in Exec(INIT, steps).workers && Exec(INIT, steps).workers[id].pc == Storing
    ensures
      var s := Exec(INIT, steps);
      var s' := Apply(s, Advance(id, attempt));
      var cb := s.workers[id].callback;
      && (s'.workers[id].pc == Joined <==> exists other :: other != id && LiveRetryOf(s, cb, other))
      && (s'.workers[id].pc != Joined ==> LiveRetryOf(s', cb, id))
      && (s'.workers[id].pc == Joined ==> s'.pending == s.pending && s'.group == s.group)
  {
    EveryRunKeepsInv(steps);
  }

  // An attempt that fails for now ends nothing: the retry goes on, its key still held and counted.
  lemma FailingForNowGoesOn(steps: seq<Step>, id: nat)
    requires id in Exec(INIT, steps).workers && Exec(INIT, steps).workers[id].pc == Retrying
    ensures
      var s, s' := Exec(INIT, steps), Apply(Exec(INIT, steps), Advance(id, FailsForNow));
      && s'.pending == s.pending && s.workers[id].callback in s'.pending
      && id in s'.workers && s'.workers[id] == s.workers[id] && id in Group(s') && s'.group == s.group
  {
    EveryRunKeepsInv(steps);
  }

  // However its last attempt ends, a panic included, a retry gives its key back.
  lemma EveryEndingReleases(steps: seq<Step>, id: nat, attempt: Attempt)
    requires id in Exec(INIT, steps).workers && Exec(INIT, steps).workers[id].pc == Retrying && attempt != FailsForNow
    ensures
      var s := Exec(INIT, steps + [Advance(id, attempt), Advance(id, attempt), Advance(id, attempt)]);
      && id in s.workers && s.workers[id].pc == Gone
      && s.workers[id].applied == (if attempt.Succeeds? then 1 else 0)
      && Exec(INIT, steps).workers[id].callback !in s.pending
      && s.group == Exec(INIT, steps).group - 1
  {
    var a := Advance(id, attempt);
    var s := Exec(INIT, steps);
    EveryRunKeepsInv(steps);
    assert (steps + [a, a, a])[..|steps| + 2] == steps + [a, a];
    assert (steps + [a, a])[..|steps| + 1] == steps + [a];
    assert (steps + [a])[..|steps|] == steps;
    assert Exec(INIT, steps + [a]) == Apply(s, a);
    assert Exec(INIT, steps + [a, a]) == Apply(Apply(s, a), a);
  }
}
