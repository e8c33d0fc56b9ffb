/**
An execution in which a workflow ID gets a second run: two requests for it, one of which reads the row as STARTING
and takes that read to the engine only after the run the other started has ended.
*/
module FlowStartSecondRun {
  import opened Wrappers
  import opened CaseRows
  import opened FlowStart
  import opened FlowStartSafety
  import opened FlowStartRuns

  const CATALOG := map[DefinitionKey(1, "template") := "definition"]

  const REQUEST := StartRequest("case", "template", "flow", true, None, None, None)

  const ROW := FlowRow("case", "template", 1, Starting, None)

  // The requests before and after the calls of the run.
  const ASKED := Request(REQUEST, Lookup, 0, None, None)
  const LOADING := Request(REQUEST, LoadCurrent, 0, None, None)
  const LOADED := Request(REQUEST, Recording, 1, Some("definition"), None)
  const RECORDED := Request(REQUEST, Reread, 1, Some("definition"), None)
  const STARTING_READ := Request(REQUEST, LoadRecorded, 0, None, Some(ROW))
  const READY := Request(REQUEST, StartEngine, 1, Some("definition"), Some(ROW))
  const CONFIRMING := Request(REQUEST, ConfirmStart, 1, Some("definition"), Some(ROW))

  lemma ReachableStep(s: Sys, step: Step)
    requires Reachable(s)
    ensures Reachable(Apply(s, step))
  {
    var catalog, current, steps :| Exec(Init(catalog, current), steps) == s;
    assert (steps + [step])[..|steps|] == steps;
    assert Exec(Init(catalog, current), steps + [step]) == Apply(s, step);
  }

  // A state in which no workflow has run yet.
  function Before(db: Db, first: Request, second: Request): Sys {
    Sys(db, CATALOG, 1, 2, map[0 := first, 1 := second], {}, {}, multiset{}, [])
  }

  // The first request's next call, which starts nothing.
  lemma FirstCalls(db: Db, first: Request, second: Request, db': Db, first': Request)
    requires Reachable(Before(db, first, second))
    requires ApplyCall(Before(db, first, second), 0)
          == Before(db, first, second).(db := db', requests := Before(db, first, second).requests[0 := first'])
    ensures Reachable(Before(db', first', second))
  {
    var s := Before(db, first, second);
    assert Apply(s, Call(0)) == Before(db', first', second) by {
      assert s.requests[0 := first'] == map[0 := first', 1 := second];
    }
    ReachableStep(s, Call(0));
  }

  lemma BothAsk()
    ensures Reachable(Before(EMPTY_DB, ASKED, ASKED))
  {
    var init := Init(CATALOG, 1);
    assert Exec(init, []) == init;
    var one := Apply(init, Begin(REQUEST));
    ReachableStep(init, Begin(REQUEST));
    ReachableStep(one, Begin(REQUEST));
    assert Apply(one, Begin(REQUEST)) == Before(EMPTY_DB, ASKED, ASKED);
  }

  const RECORDED_DB := AtomicRecord(EMPTY_DB, NewFlow("flow", "case", "template", 1, None), None, None)

  lemma FirstRecords()
    ensures Reachable(Before(RECORDED_DB, RECORDED, ASKED))
  {
    BothAsk();
    FirstCalls(EMPTY_DB, ASKED, ASKED, EMPTY_DB, LOADING);
    FirstCalls(EMPTY_DB, LOADING, ASKED, EMPTY_DB, LOADED);
    FirstCalls(EMPTY_DB, LOADED, ASKED, RECORDED_DB, RECORDED);
  }

  lemma SecondReads()
    ensures Reachable(Before(RECORDED_DB, RECORDED, STARTING_READ))
  {
    FirstRecords();
    var s := Before(RECORDED_DB, RECORDED, ASKED);
    assert RECORDED_DB.flows["flow"] == ROW;
    ReachableStep(s, Call(1));
    assert s.requests[1 := STARTING_READ] == map[0 := RECORDED, 1 := STARTING_READ];
    assert ApplyCall(s, 1) == Before(RECORDED_DB, RECORDED, STARTING_READ);
  }

  // The second request has read the row as STARTING, and the first has taken it to the engine.
  function Started(db: Db, acked: set<WorkflowId>): Sys {
    Sys(db, CATALOG, 1, 2, map[0 := CONFIRMING, 1 := STARTING_READ], {"flow"}, acked, multiset{"flow"},
        [Start(0, "flow", "definition", StartVars(ROW))])
  }

  lemma FirstStarts()
    ensures Reachable(Started(RECORDED_DB, {}))
  {
    SecondReads();
    assert RECORDED_DB.flows["flow"] == ROW;
    FirstCalls(RECORDED_DB, RECORDED, STARTING_READ, RECORDED_DB, READY);
    var s := Before(RECORDED_DB, READY, STARTING_READ);
    ReachableStep(s, Call(0));
    assert s.requests[0 := CONFIRMING] == map[0 := CONFIRMING, 1 := STARTING_READ];
    assert ApplyCall(s, 0) == Started(RECORDED_DB, {});
  }

  // Its run ends once its completion is recorded; the second request still holds its read.
  lemma StaleReadIsReached()
    ensures exists s ::
      Reachable(s) && s.runs["flow"] == 1 && "flow" in s.running && "flow" in s.acked && HoldsStartingRead(s, "flow")
  {
    FirstStarts();
    var s := Started(RECORDED_DB, {});
    ReachableStep(s, Callback("flow"));
    var done := Apply(s, Callback("flow"));
    assert done == Started(AtomicMarkCompleted(RECORDED_DB, "flow"), {"flow"});
    assert Holding(done.requests[1], "flow");
  }

  lemma {:induction false} ReachableExec(s: Sys, steps: seq<Step>)
    requires Reachable(s)
    ensures Reachable(Exec(s, steps))
  {
    if steps != [] {
      ReachableExec(s, steps[..|steps| - 1]);
      ReachableStep(Exec(s, steps[..|steps| - 1]), steps[|steps| - 1]);
    }
  }

  // So the side condition of AtMostOneRun cannot be dropped: some execution runs a workflow ID twice.
  lemma SecondRunHappens()
    ensures exists s :: Reachable(s) && s.runs["flow"] == 2
  {
    StaleReadIsReached();
    var s :|
      Reachable(s) && s.runs["flow"] == 1 && "flow" in s.running && "flow" in s.acked && HoldsStartingRead(s, "flow");
    ReachableInv(s);
    StaleReadRunsAgain(s, "flow");
    var more :| Exec(Apply(s, EndRun("flow")), more).runs["flow"] == 2;
    ReachableStep(s, EndRun("flow"));
    ReachableExec(Apply(s, EndRun("flow")), more);
  }
}
