/**
What holds of the rows after any sequence of whole caseflow transactions: the case label follows its
flows, a flow's row only moves forward, and a case's attributes, name and role holders are a fold over
the flows that were really inserted, in commit order.
*/
module CaseHistory {
  import opened Wrappers
  import opened CaseRows

  // ---- The case state follows its flows ----

  ghost predicate CaseLabel(db: Db, c: CaseId)
    requires c in db.cases
  {
    db.cases[c].state == Finished <==> HasFlow(db, c) && AllCompleted(db, c)
  }

  ghost predicate ForeignKeys(db: Db) {
    && (forall w :: w in db.flows ==> db.flows[w].caseId in db.cases)
    && (forall k :: k in db.parties ==> k.caseId in db.cases)
  }

  ghost predicate Consistent(db: Db) {
    && ForeignKeys(db)
    && forall c :: c in db.cases ==> CaseLabel(db, c)
  }

  lemma AtomicKeepsConsistent(db: Db, op: Op)
    requires Consistent(db)
    ensures Consistent(Atomic(db, op))
  {
    var db' := Atomic(db, op);
    forall c | c in db'.cases
      ensures CaseLabel(db', c)
    {
      match op {
        case EnsureCase(_) =>
          assert HasFlow(db', c) == HasFlow(db, c);
          assert AllCompleted(db', c) == AllCompleted(db, c);
          if c !in db.cases {
            assert !HasFlow(db, c);
          }
        case Record(f, _, _) =>
          RecordKeepsLabel(db, f, op.owner, op.info, c);
        case MarkStarted(w) =>
          MarkStartedKeepsLabel(db, w, c);
        case MarkCompleted(w) =>
          MarkCompletedKeepsLabel(db, w, c);
      }
    }
  }

  lemma RecordKeepsLabel(db: Db, f: NewFlow, owner: Option<Owner>, info: Option<CaseInfo>, c: CaseId)
    requires Consistent(db) && c in AtomicRecord(db, f, owner, info).cases
    ensures CaseLabel(AtomicRecord(db, f, owner, info), c)
  {
    var db' := AtomicRecord(db, f, owner, info);
    if f.workflowId !in db.flows {
      if c == f.caseId {
        assert db'.flows[f.workflowId].status == Starting;
      } else {
        SameFlowsOf(db, db', c);
      }
    }
  }

  lemma MarkStartedKeepsLabel(db: Db, w: WorkflowId, c: CaseId)
    requires Consistent(db) && c in db.cases
    ensures CaseLabel(AtomicMarkStarted(db, w), c)
  {
    var db' := AtomicMarkStarted(db, w);
    if db' != db {
      if c == db.flows[w].caseId {
        assert db'.flows[w].status == Started && db.flows[w].status == Starting;
      } else {
        SameFlowsOf(db, db', c);
      }
    }
  }

  lemma MarkCompletedKeepsLabel(db: Db, w: WorkflowId, c: CaseId)
    requires Consistent(db) && c in db.cases
    ensures CaseLabel(AtomicMarkCompleted(db, w), c)
  {
    var db' := AtomicMarkCompleted(db, w);
    if w in db.flows {
      var done := db.(flows := db.flows[w := db.flows[w].(status := Completed)]);
      assert db'.flows == done.flows;
      if c == db.flows[w].caseId {
        assert HasFlow(db', c) by { assert w in db'.flows; }
        assert AllCompleted(db', c) == AllCompleted(done, c);
        if !AllCompleted(done, c) {
          var v :| v in done.flows && done.flows[v].caseId == c && done.flows[v].status != Completed;
          assert v in db.flows && db.flows[v].status != Completed;
        }
      } else {
        SameFlowsOf(db, db', c);
      }
    }
  }

  lemma SameFlowsOf(db: Db, db': Db, c: CaseId)
    requires forall w :: w in db.flows && db.flows[w].caseId == c ==> w in db'.flows && db'.flows[w] == db.flows[w]
    requires forall w :: w in db'.flows && db'.flows[w].caseId == c ==> w in db.flows && db'.flows[w] == db.flows[w]
    ensures HasFlow(db', c) == HasFlow(db, c)
    ensures AllCompleted(db', c) == AllCompleted(db, c)
  {
    if HasFlow(db, c) {
      var w :| w in db.flows && db.flows[w].caseId == c;
      assert w in db'.flows;
    }
    if HasFlow(db', c) {
      var w :| w in db'.flows && db'.flows[w].caseId == c;
      assert w in db.flows;
    }
  }

  // ---- A flow's row is fixed once inserted, and its status only moves forward ----

  function Rank(s: Status): nat {
    match s
    case Starting => 0
    case Started => 1
    case Completed => 2
  }

  predicate SameFlow(f: FlowRow, g: FlowRow) {
    f.(status := Starting) == g.(status := Starting)
  }

  ghost predicate Forward(db: Db, db': Db) {
    forall w :: w in db.flows ==>
      w in db'.flows && SameFlow(db.flows[w], db'.flows[w]) && Rank(db.flows[w].status) <= Rank(db'.flows[w].status)
  }

  lemma MarkCompletedMovesForward(db: Db, w: WorkflowId)
    ensures Forward(db, AtomicMarkCompleted(db, w))
  {
  }

  lemma AtomicMovesForward(db: Db, op: Op)
    ensures Forward(db, Atomic(db, op))
  {
    match op
    case EnsureCase(_) =>
    case Record(f, owner, info) =>
    case MarkStarted(w) =>
    case MarkCompleted(w) => MarkCompletedMovesForward(db, w);
  }

  lemma ForwardOnward(a: Db, b: Db, c: Db)
    requires Forward(a, b) && Forward(b, c)
    ensures Forward(a, c)
  {
  }

  lemma {:induction false} AtomicRunMovesForward(db: Db, ops: seq<Op>)
    ensures Forward(db, AtomicRun(db, ops))
  {
    if ops != [] {
      var before := AtomicRun(db, ops[..|ops| - 1]);
      AtomicRunMovesForward(db, ops[..|ops| - 1]);
      AtomicMovesForward(before, ops[|ops| - 1]);
      ForwardOnward(db, before, AtomicRun(db, ops));
    }
  }

  // ---- What the rows hold, as a fold over what was really inserted ----

  datatype Inserted = Inserted(flow: NewFlow, owner: Option<Owner>, info: Option<CaseInfo>)

  predicate Names(ins: seq<Inserted>, w: WorkflowId) {
    exists i :: 0 <= i < |ins| && ins[i].flow.workflowId == w
  }

  predicate NamesCase(ins: seq<Inserted>, c: CaseId) {
    exists i :: 0 <= i < |ins| && ins[i].flow.caseId == c
  }

  function NextInserts(ins: seq<Inserted>, op: Op): seq<Inserted> {
    match op
    case Record(f, owner, info) => if Names(ins, f.workflowId) then ins else ins + [Inserted(f, owner, info)]
    case _ => ins
  }

  // The Records of ops that won their first insert, in commit order: a repeat contributes nothing.
  function Inserts(ops: seq<Op>): seq<Inserted> {
    if ops == [] then [] else NextInserts(Inserts(ops[..|ops| - 1]), ops[|ops| - 1])
  }

  function EnsuredBy(op: Op): set<CaseId> {
    if op.EnsureCase? then {op.caseId} else {}
  }

  function Ensured(ops: seq<Op>): set<CaseId> {
    if ops == [] then {} else Ensured(ops[..|ops| - 1]) + EnsuredBy(ops[|ops| - 1])
  }

  // The attributes of case c: each flow's CaseInfo overrides the keys it sends and keeps the others.
  function AttributesOf(ins: seq<Inserted>, c: CaseId): map<string, Json> {
    if ins == [] then
      map[]
    else
      var before := AttributesOf(ins[..|ins| - 1], c);
      var last := ins[|ins| - 1];
      if last.flow.caseId == c && last.info.Some? then before + last.info.value.attributes else before
  }

  // The name the last naming flow of case c gave it.
  function NameOf(ins: seq<Inserted>, c: CaseId): Option<string> {
    if ins == [] then
      None
    else
      var last := ins[|ins| - 1];
      if last.flow.caseId == c && last.info.Some? && last.info.value.name != "" then Some(last.info.value.name)
      else NameOf(ins[..|ins| - 1], c)
  }

  // The holder of role on case c: that of the last flow of c naming the role.
  function HolderOf(ins: seq<Inserted>, c: CaseId, role: Role): Option<string> {
    if ins == [] then
      None
    else
      var last := ins[|ins| - 1];
      if last.flow.caseId == c && last.owner.Some? && last.owner.value.role == role then
        Some(last.owner.value.ouHandle)
      else
        HolderOf(ins[..|ins| - 1], c, role)
  }

  function LookupParty(db: Db, c: CaseId, role: Role): Option<string> {
    var k := PartyKey(c, role);
    if k in db.parties then Some(db.parties[k]) else None
  }

  // The row holds what f asked for.
  predicate RowOf(row: FlowRow, f: NewFlow) {
    && row.caseId == f.caseId && row.templateId == f.templateId
    && row.manifestVersion == f.manifestVersion && row.payload == f.payload
  }

  // A flow row exists exactly for each insert that won, and holds what that insert carried.
  ghost predicate FlowsAreInserts(db: Db, ins: seq<Inserted>) {
    && (forall w :: w in db.flows <==> Names(ins, w))
    && (forall i :: 0 <= i < |ins| ==>
          ins[i].flow.workflowId in db.flows && RowOf(db.flows[ins[i].flow.workflowId], ins[i].flow))
  }

  ghost predicate CaseIsFold(db: Db, ins: seq<Inserted>, c: CaseId)
    requires c in db.cases
  {
    db.cases[c].attributes == AttributesOf(ins, c) && db.cases[c].name == NameOf(ins, c)
  }

  // A case row exists exactly for each case EnsureCase made or an insert named, and is their fold.
  ghost predicate CasesAreFold(db: Db, ins: seq<Inserted>, ensured: set<CaseId>) {
    && (forall c :: c in db.cases <==> c in ensured || NamesCase(ins, c))
    && (forall c :: c in db.cases ==> CaseIsFold(db, ins, c))
  }

  ghost predicate PartiesAreFold(db: Db, ins: seq<Inserted>) {
    forall c, role :: LookupParty(db, c, role) == HolderOf(ins, c, role)
  }

  ghost predicate RowsAreFold(db: Db, ins: seq<Inserted>, ensured: set<CaseId>) {
    FlowsAreInserts(db, ins) && CasesAreFold(db, ins, ensured) && PartiesAreFold(db, ins)
  }

  // After any sequence of transactions from empty tables, the rows are exactly the fold of the inserts
  // that won.
  lemma {:induction false} RowsFoldInserts(ops: seq<Op>)
    ensures RowsAreFold(AtomicRun(EMPTY_DB, ops), Inserts(ops), Ensured(ops))
  {
    if ops != [] {
      var before := ops[..|ops| - 1];
      RowsFoldInserts(before);
      FoldStep(AtomicRun(EMPTY_DB, before), Inserts(before), Ensured(before), ops[|ops| - 1]);
    }
  }

  // Read as the tables promise it: a case row was made by EnsureCase or has a flow.
  lemma CaseRowsAreOwned(ops: seq<Op>, c: CaseId)
    ensures
      var db := AtomicRun(EMPTY_DB, ops);
      c in db.cases <==> c in Ensured(ops) || HasFlow(db, c)
  {
    var db, ins := AtomicRun(EMPTY_DB, ops), Inserts(ops);
    RowsFoldInserts(ops);
    if HasFlow(db, c) {
      var w :| w in db.flows && db.flows[w].caseId == c;
      var i :| 0 <= i < |ins| && ins[i].flow.workflowId == w;
      assert ins[i].flow.caseId == c;
    }
    if NamesCase(ins, c) {
      var i :| 0 <= i < |ins| && ins[i].flow.caseId == c;
      assert db.flows[ins[i].flow.workflowId].caseId == c;
    }
  }

  lemma FoldStep(db: Db, ins: seq<Inserted>, ensured: set<CaseId>, op: Op)
    requires RowsAreFold(db, ins, ensured)
    ensures RowsAreFold(Atomic(db, op), NextInserts(ins, op), ensured + EnsuredBy(op))
  {
    match op
    case EnsureCase(c) =>
      EnsureFolds(db, ins, ensured, c);
    case Record(f, owner, info) =>
      if f.workflowId !in db.flows {
        var n := Inserted(f, owner, info);
        InsertFoldsFlows(db, ins, n);
        InsertFoldsCases(db, ins, ensured, n);
        InsertFoldsParties(db, ins, n);
      }
    case MarkStarted(w) =>
      SameIdentityFold(db, AtomicMarkStarted(db, w), ins, ensured);
    case MarkCompleted(w) =>
      CompletedFolds(db, ins, ensured, w);
  }

  lemma EnsureFolds(db: Db, ins: seq<Inserted>, ensured: set<CaseId>, c: CaseId)
    requires RowsAreFold(db, ins, ensured)
    ensures RowsAreFold(Atomic(db, EnsureCase(c)), ins, ensured + {c})
  {
    var db' := Atomic(db, EnsureCase(c));
    if c !in db.cases {
      UnnamedCase(ins, c);
      forall d | d in db'.cases
        ensures CaseIsFold(db', ins, d)
      {
        assert d != c ==> CaseIsFold(db, ins, d);
      }
    }
    assert FlowsAreInserts(db', ins);
    assert forall d, role :: LookupParty(db', d, role) == LookupParty(db, d, role);
  }

  lemma {:induction false} UnnamedCase(ins: seq<Inserted>, c: CaseId)
    requires !NamesCase(ins, c)
    ensures AttributesOf(ins, c) == map[] && NameOf(ins, c) == None
  {
    if ins != [] {
      assert ins[|ins| - 1].flow.caseId != c;
      assert forall i :: 0 <= i < |ins| - 1 ==> ins[..|ins| - 1][i] == ins[i];
      UnnamedCase(ins[..|ins| - 1], c);
    }
  }

  // A change of flow statuses and case labels alone keeps the fold.
  lemma SameIdentityFold(db: Db, db': Db, ins: seq<Inserted>, ensured: set<CaseId>)
    requires RowsAreFold(db, ins, ensured)
    requires db'.flows.Keys == db.flows.Keys && db'.cases.Keys == db.cases.Keys && db'.parties == db.parties
    requires forall w :: w in db.flows ==> SameFlow(db.flows[w], db'.flows[w])
    requires forall c :: c in db.cases ==>
      db.cases[c].attributes == db'.cases[c].attributes && db.cases[c].name == db'.cases[c].name
    ensures RowsAreFold(db', ins, ensured)
  {
    assert forall w :: w in db'.flows <==> w in db'.flows.Keys;
    assert forall c :: c in db'.cases <==> c in db'.cases.Keys;
    assert forall c, role :: LookupParty(db', c, role) == LookupParty(db, c, role);
  }

  // A completion changes a status and a label, and nothing else of the rows.
  lemma CompletionKeepsIdentity(db: Db, w: WorkflowId)
    ensures
      var db' := AtomicMarkCompleted(db, w);
      && db'.flows.Keys == db.flows.Keys && db'.parties == db.parties
      && (forall v :: v in db.flows ==> SameFlow(db.flows[v], db'.flows[v]))
  {
  }

  lemma CompletionKeepsCases(db: Db, w: WorkflowId)
    ensures
      var db' := AtomicMarkCompleted(db, w);
      && db'.cases.Keys == db.cases.Keys
      && forall c :: c in db.cases ==>
           db.cases[c].attributes == db'.cases[c].attributes && db.cases[c].name == db'.cases[c].name
  {
  }

  lemma CompletedFolds(db: Db, ins: seq<Inserted>, ensured: set<CaseId>, w: WorkflowId)
    requires RowsAreFold(db, ins, ensured)
    ensures RowsAreFold(AtomicMarkCompleted(db, w), ins, ensured)
  {
    CompletionKeepsIdentity(db, w);
    CompletionKeepsCases(db, w);
    SameIdentityFold(db, AtomicMarkCompleted(db, w), ins, ensured);
  }

  lemma InsertFoldsFlows(db: Db, ins: seq<Inserted>, n: Inserted)
    requires FlowsAreInserts(db, ins) && n.flow.workflowId !in db.flows
    ensures FlowsAreInserts(AtomicRecord(db, n.flow, n.owner, n.info), ins + [n])
  {
    var db' := AtomicRecord(db, n.flow, n.owner, n.info);
    var ins' := ins + [n];
    forall w
      ensures w in db'.flows <==> Names(ins', w)
    {
      assert w in db.flows <==> Names(ins, w);
      if Names(ins, w) {
        var i :| 0 <= i < |ins| && ins[i].flow.workflowId == w;
        assert ins'[i].flow.workflowId == w;
      }
      assert ins'[|ins|] == n;
    }
    forall i | 0 <= i < |ins'|
      ensures ins'[i].flow.workflowId in db'.flows
      ensures RowOf(db'.flows[ins'[i].flow.workflowId], ins'[i].flow)
    {
      assert i < |ins| ==> ins'[i] == ins[i] && Names(ins, ins[i].flow.workflowId);
    }
  }

  lemma InsertFoldsCases(db: Db, ins: seq<Inserted>, ensured: set<CaseId>, n: Inserted)
    requires CasesAreFold(db, ins, ensured) && n.flow.workflowId !in db.flows
    ensures CasesAreFold(AtomicRecord(db, n.flow, n.owner, n.info), ins + [n], ensured)
  {
    var db' := AtomicRecord(db, n.flow, n.owner, n.info);
    var ins' := ins + [n];
    assert ins'[..|ins|] == ins && ins'[|ins|] == n;
    var c0 := n.flow.caseId;
    forall c
      ensures NamesCase(ins', c) <==> c == c0 || NamesCase(ins, c)
    {
      if i :| 0 <= i < |ins| && ins[i].flow.caseId == c {
        assert ins'[i].flow.caseId == c;
      }
    }
    if c0 !in db.cases {
      UnnamedCase(ins, c0);
    }
    forall c | c in db'.cases
      ensures CaseIsFold(db', ins', c)
    {
      if c != c0 {
        assert CaseIsFold(db, ins, c);
      }
    }
  }

  lemma InsertFoldsParties(db: Db, ins: seq<Inserted>, n: Inserted)
    requires PartiesAreFold(db, ins) && n.flow.workflowId !in db.flows
    ensures PartiesAreFold(AtomicRecord(db, n.flow, n.owner, n.info), ins + [n])
  {
    var db' := AtomicRecord(db, n.flow, n.owner, n.info);
    var ins' := ins + [n];
    assert ins'[..|ins|] == ins && ins'[|ins|] == n;
    forall c, role
      ensures LookupParty(db', c, role) == HolderOf(ins', c, role)
    {
      assert LookupParty(db, c, role) == HolderOf(ins, c, role);
    }
  }

  // ---- The status of a flow, from the operations that name it ----

  predicate RecordsAt(ops: seq<Op>, w: WorkflowId, i: nat) {
    i < |ops| && ops[i].Record? && ops[i].flow.workflowId == w
  }

  ghost predicate Recorded(ops: seq<Op>, w: WorkflowId) {
    exists i: nat :: RecordsAt(ops, w, i)
  }

  // op comes after a Record of w.
  ghost predicate RecordedBefore(ops: seq<Op>, w: WorkflowId, op: Op) {
    exists j | 0 <= j < |ops| :: ops[j] == op && Recorded(ops[..j], w)
  }

  lemma OneMoreRecorded(ops: seq<Op>, last: Op, w: WorkflowId)
    ensures Recorded(ops + [last], w) <==> Recorded(ops, w) || (last.Record? && last.flow.workflowId == w)
  {
    var all := ops + [last];
    if i: nat :| RecordsAt(ops, w, i) {
      assert RecordsAt(all, w, i);
    }
    if i: nat :| RecordsAt(all, w, i) {
      assert i < |ops| ==> RecordsAt(ops, w, i);
    }
    assert last.Record? && last.flow.workflowId == w ==> RecordsAt(all, w, |ops|);
  }

  lemma OneMoreRecordedBefore(ops: seq<Op>, last: Op, w: WorkflowId, op: Op)
    ensures RecordedBefore(ops + [last], w, op) <==> RecordedBefore(ops, w, op) || (last == op && Recorded(ops, w))
  {
    var all := ops + [last];
    assert forall j | 0 <= j <= |ops| :: all[..j] == ops[..j];
    assert all[..|ops|] == ops;
    if j :| 0 <= j < |ops| && ops[j] == op && Recorded(ops[..j], w) {
      assert all[j] == op && Recorded(all[..j], w);
    }
    if j :| 0 <= j < |all| && all[j] == op && Recorded(all[..j], w) {
      assert j < |ops| ==> ops[j] == op && Recorded(ops[..j], w);
    }
  }

  // A flow is COMPLETED exactly when a MarkCompleted of it followed its record, still STARTING exactly when neither
  // that nor a MarkStarted did, and STARTED otherwise: no operation touches another's flow.
  ghost predicate StatusFollows(db: Db, ops: seq<Op>, w: WorkflowId) {
    && (w in db.flows <==> Recorded(ops, w))
    && (w in db.flows ==>
          && (db.flows[w].status == Completed <==> RecordedBefore(ops, w, MarkCompleted(w)))
          && (db.flows[w].status == Starting <==>
                !RecordedBefore(ops, w, MarkStarted(w)) && !RecordedBefore(ops, w, MarkCompleted(w))))
  }

  lemma {:induction false} UnrecordedBefore(ops: seq<Op>, w: WorkflowId, op: Op)
    requires !Recorded(ops, w)
    ensures !RecordedBefore(ops, w, op)
  {
    if j :| 0 <= j < |ops| && ops[j] == op && Recorded(ops[..j], w) {
      var i: nat :| RecordsAt(ops[..j], w, i);
      assert RecordsAt(ops, w, i);
    }
  }

  lemma {:induction false} StatusIsOfItsOwnOperations(ops: seq<Op>, w: WorkflowId)
    ensures StatusFollows(AtomicRun(EMPTY_DB, ops), ops, w)
  {
    if ops == [] {
      assert !Recorded(ops, w);
    } else {
      var before, last := ops[..|ops| - 1], ops[|ops| - 1];
      StatusIsOfItsOwnOperations(before, w);
      assert ops == before + [last];
      OneMoreRecorded(before, last, w);
      OneMoreRecordedBefore(before, last, w, MarkStarted(w));
      OneMoreRecordedBefore(before, last, w, MarkCompleted(w));
      if !Recorded(before, w) {
        UnrecordedBefore(before, w, MarkStarted(w));
        UnrecordedBefore(before, w, MarkCompleted(w));
      }
      StatusStep(AtomicRun(EMPTY_DB, before), last, w);
    }
  }

  function NextStatus(status: Status, op: Op, w: WorkflowId): Status {
    if op == MarkCompleted(w) || status == Completed then Completed
    else if op == MarkStarted(w) then Started
    else status
  }

  // What one operation does to the flow w.
  lemma StatusStep(db: Db, op: Op, w: WorkflowId)
    ensures
      var db' := Atomic(db, op);
      && (w in db'.flows <==> w in db.flows || (op.Record? && op.flow.workflowId == w))
      && (w in db'.flows && w !in db.flows ==> db'.flows[w].status == Starting)
      && (w in db.flows ==> w in db'.flows && db'.flows[w].status == NextStatus(db.flows[w].status, op, w))
  {
    match op
    case EnsureCase(_) =>
    case Record(_, _, _) =>
    case MarkStarted(_) =>
    case MarkCompleted(_) =>
  }
}
