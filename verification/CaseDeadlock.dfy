/**
The waits among the case key, the flow key, the case row lock and the party row never form a cycle, so
no schedule deadlocks: every open transaction can be run to its commit.
*/
module CaseDeadlock {
  import opened Wrappers
  import opened CaseRows
  import opened CaseLocks
  import opened CaseSerializability

  // How far a transaction is along the order the locks are taken in. Having the case row's update lock
  // already puts a Record past every other wait for it.
  function LockRank(t: Txn): nat {
    match t.pc
    case InsertCase => 0
    case ReadFlow => 0
    case InsertFlow => 1
    case DropCase => 2
    case CheckForeignKey => 2
    case LockCase => 2
    case Reopen => 3
    case UpdateStarted => 4
    case MergeCaseInfo => if NoKeyUpdate in t.caseLocks then 5 else 4
    case CompleteFlow => 5
    case UpsertOwner => 6
    case FinishCase => 8
    case Committing => 9
  }

  lemma WaitsForHigherRank(s: Sys, id: TxnId, other: TxnId)
    requires Inv(s) && Waits(s, id, other)
    ensures LockRank(s.txns[id]) < LockRank(s.txns[other])
  {
    var t, h := s.txns[id], s.txns[other];
    assert TxnOk(s.db, t) && TxnOk(s.db, h) && Exclusive(t, h);
    match t.pc
    case CheckForeignKey => DenierRank(s.db, t, h, KeyShare);
    case Reopen => DenierRank(s.db, t, h, NoKeyUpdate);
    case MergeCaseInfo => DenierRank(s.db, t, h, NoKeyUpdate);
    case LockCase => DenierRank(s.db, t, h, ForUpdate);
    case _ =>
  }

  // Whoever holds a case lock that t's next statement conflicts with is further along than t.
  lemma DenierRank(db: Db, t: Txn, h: Txn, m: CaseLock)
    requires TxnOk(db, t) && TxnOk(db, h) && Exclusive(t, h) && Denies(h, t.caseId, m)
    requires (t.pc == CheckForeignKey && m == KeyShare)
      || (t.pc == LockCase && m == ForUpdate)
      || ((t.pc == Reopen || t.pc == MergeCaseInfo) && m == NoKeyUpdate)
    ensures LockRank(t) < LockRank(h)
  {
    var n :| n in h.caseLocks && Conflict(m, n);
    if m == NoKeyUpdate {
      assert KeyShare in t.caseLocks;
      assert n == NoKeyUpdate;
      assert NoKeyUpdate !in t.caseLocks;
    }
  }

  // The safety half: waits never form a cycle.
  function Next(cycle: seq<TxnId>, i: nat): TxnId
    requires i < |cycle|
  {
    if i + 1 < |cycle| then cycle[i + 1] else cycle[0]
  }

  predicate WaitsForNext(s: Sys, cycle: seq<TxnId>, i: nat)
    requires i < |cycle|
  {
    Waits(s, cycle[i], Next(cycle, i))
  }

  ghost predicate WaitCycle(s: Sys, cycle: seq<TxnId>) {
    |cycle| > 0 && forall i :: 0 <= i < |cycle| ==> WaitsForNext(s, cycle, i)
  }

  function RankOf(s: Sys, id: TxnId): nat {
    if id in s.txns then LockRank(s.txns[id]) else 0
  }

  lemma NoWaitCycle(steps: seq<Step>, cycle: seq<TxnId>)
    ensures !WaitCycle(Exec(INIT, steps), cycle)
  {
    var s := Exec(INIT, steps);
    EveryScheduleKeepsInv(steps);
    if WaitCycle(s, cycle) {
      forall i | 0 <= i < |cycle|
        ensures RankOf(s, cycle[i]) < RankOf(s, Next(cycle, i))
      {
        NextIsHigher(s, cycle, i);
      }
      RankClimbs(s, cycle, |cycle| - 1);
      assert false;
    }
  }

  lemma NextIsHigher(s: Sys, cycle: seq<TxnId>, i: nat)
    requires Inv(s) && WaitCycle(s, cycle) && i < |cycle|
    ensures RankOf(s, cycle[i]) < RankOf(s, Next(cycle, i))
  {
    assert WaitsForNext(s, cycle, i);
    WaitsForHigherRank(s, cycle[i], Next(cycle, i));
  }

  lemma {:induction false} RankClimbs(s: Sys, cycle: seq<TxnId>, i: nat)
    requires i < |cycle|
    requires forall k: nat :: k < |cycle| - 1 ==> RankOf(s, cycle[k]) < RankOf(s, Next(cycle, k))
    ensures RankOf(s, cycle[0]) <= RankOf(s, cycle[i])
  {
    if i > 0 {
      RankClimbs(s, cycle, i - 1);
      assert RankOf(s, cycle[i - 1]) < RankOf(s, Next(cycle, i - 1));
    }
  }

  // The liveness half: one of the open transactions can always take its next statement.
  lemma SomeoneCanMove(s: Sys)
    requires Inv(s) && s.txns != map[]
    ensures exists id :: id in s.txns && !Blocked(s, id)
  {
    var any :| any in s.txns;
    ClimbToUnblocked(s, any);
  }

  lemma {:induction false} ClimbToUnblocked(s: Sys, id: TxnId)
    requires Inv(s) && id in s.txns
    ensures exists x :: x in s.txns && !Blocked(s, x)
    decreases 9 - LockRank(s.txns[id])
  {
    if Blocked(s, id) {
      var other :| other in s.txns && Waits(s, id, other);
      WaitsForHigherRank(s, id, other);
      ClimbToUnblocked(s, other);
    }
  }

  // Statements left before t ends.
  function Left(t: Txn): nat {
    match t.pc
    case InsertCase => if t.op.EnsureCase? then 2 else 7
    case InsertFlow => 6
    case CheckForeignKey => 5
    case Reopen => 4
    case MergeCaseInfo => 3
    case UpsertOwner => 2
    case DropCase => 2
    case UpdateStarted => 2
    case ReadFlow => 5
    case LockCase => 4
    case CompleteFlow => 3
    case FinishCase => 2
    case Committing => 1
  }

  ghost function Work(txns: map<TxnId, Txn>): nat {
    if txns == map[] then 0 else var id :| id in txns; Left(txns[id]) + Work(txns - {id})
  }

  lemma {:induction false} WorkOf(txns: map<TxnId, Txn>, id: TxnId)
    requires id in txns
    ensures Work(txns) == Left(txns[id]) + Work(txns - {id})
    decreases |txns|
  {
    var first :| first in txns && Work(txns) == Left(txns[first]) + Work(txns - {first});
    if first != id {
      assert (txns - {first}) - {id} == (txns - {id}) - {first};
      WorkOf(txns - {first}, id);
      WorkOf(txns - {id}, first);
    }
  }

  lemma LessLeftIsLessWork(txns: map<TxnId, Txn>, id: TxnId, t: Txn)
    requires id in txns && Left(t) < Left(txns[id])
    ensures Work(txns[id := t]) < Work(txns)
  {
    WorkOf(txns, id);
    WorkOf(txns[id := t], id);
    assert txns[id := t] - {id} == txns - {id};
  }

  lemma StatementLeavesLess(s: Sys, id: TxnId)
    requires id in s.txns && TxnOk(s.db, s.txns[id]) && !Blocked(s, id)
    ensures Work(Apply(s, Advance(id)).txns) < Work(s.txns)
  {
    if s.txns[id].pc == Committing {
      WorkOf(s.txns, id);
    } else {
      LessLeftIsLessWork(s.txns, id, Execute(s.db, s.txns[id]));
    }
  }

  predicate OnlyAdvances(steps: seq<Step>) {
    forall i :: 0 <= i < |steps| ==> steps[i].Advance?
  }

  lemma {:induction false} ExecConcat(s: Sys, a: seq<Step>, b: seq<Step>)
    ensures Exec(s, a + b) == Exec(Exec(s, a), b)
  {
    if b == [] {
      assert a + b == a;
    } else {
      assert (a + b)[..|a + b| - 1] == a + b[..|b| - 1];
      ExecConcat(s, a, b[..|b| - 1]);
    }
  }

  lemma ExecFirst(s: Sys, step: Step, rest: seq<Step>)
    ensures Exec(s, [step] + rest) == Exec(Apply(s, step), rest)
  {
    assert [step][..0] == [];
    assert Exec(s, [step]) == Apply(Exec(s, []), step);
    ExecConcat(s, [step], rest);
  }

  ghost predicate CanDrain(s: Sys) {
    exists more :: OnlyAdvances(more) && Exec(s, more).txns == map[]
  }

  // From any state a schedule reaches, every open transaction can be run to its commit, with no rollback.
  lemma EveryTransactionCanCommit(steps: seq<Step>)
    ensures CanDrain(Exec(INIT, steps))
  {
    EveryScheduleKeepsInv(steps);
    Drain(Exec(INIT, steps));
  }

  lemma {:induction false} Drain(s: Sys)
    requires Inv(s)
    ensures CanDrain(s)
    decreases Work(s.txns)
  {
    if s.txns == map[] {
      assert OnlyAdvances([]) && Exec(s, []) == s;
    } else {
      SomeoneCanMove(s);
      var id :| id in s.txns && !Blocked(s, id);
      StatementLeavesLess(s, id);
      ApplyKeepsInv(s, Advance(id));
      Drain(Apply(s, Advance(id)));
      DrainFirst(s, id);
    }
  }

  lemma DrainFirst(s: Sys, id: TxnId)
    requires CanDrain(Apply(s, Advance(id)))
    ensures CanDrain(s)
  {
    var rest :| OnlyAdvances(rest) && Exec(Apply(s, Advance(id)), rest).txns == map[];
    ExecFirst(s, Advance(id), rest);
    assert OnlyAdvances([Advance(id)] + rest);
  }
}
