/** A run in which a cancel is lost, from the first step to the last. */
module CancelRuns {
  import opened Common
  import opened CancelHandshake

  function Last(run: seq<State>): State
    requires |run| > 0
  {
    run[|run| - 1]
  }

  /** One more step, to a state that is written out. */
  lemma Go(run: seq<State>, e: Event, s': State) returns (longer: seq<State>)
    requires |run| > 0 && IsRun(run) && Enabled(Last(run), e) && s' == Step(Last(run), e)
    ensures |longer| > 0 && IsRun(longer) && Last(longer) == s'
  {
    assert Next(Last(run), s');
    hide Next, Step, Enabled, Init;
    longer := run + [s'];
    forall k | 0 <= k < |longer| - 1
      ensures Next(longer[k], longer[k + 1])
    {
      if k < |run| - 1 {
        assert Next(run[k], run[k + 1]);
      }
    }
  }

  const Plainly := Choice(false, false, false, Whole, true)

  function ByWorker(): Event {
    StepWorker(0, Plainly)
  }

  function ByClient(): Event {
    StepClient(0, Plainly)
  }

  // ---------------------------------------------------------------- up to the call

  /** One task, one cancel() on it, nothing at the http service. */
  function Quiet(task: Task, client: Client, nextId: int): State {
    State([task], [client], [], map[], nextId, 0, map[], {})
  }

  lemma WorkerReachesCall() returns (run: seq<State>)
    ensures |run| > 0 && IsRun(run)
    ensures Last(run) == Quiet(Task(WCall(1), StateRunning, false, 1, false, 0, None, NoTrouble), CFind(0), 2)
  {
    hide IsRun;
    var k := Task(WStart, StatePending, false, -1, false, 0, None, NoTrouble);
    run := Started();
    k := k.(state := StateRunning, worker := WNewId);
    run := Go(run, ByWorker(), Quiet(k, CFind(0), 1));
    run := Go(run, ByWorker(), Quiet(k.(worker := WPublish(1)), CFind(0), 2));
    k := k.(httpRequestId := 1, worker := WCheck(1));
    run := Go(run, ByWorker(), Quiet(k, CFind(0), 2));
    run := Go(run, ByWorker(), Quiet(k.(worker := WCall(1)), CFind(0), 2));
  }

  lemma Started() returns (run: seq<State>)
    ensures |run| > 0 && IsRun(run)
    ensures Last(run) == Quiet(Task(WStart, StatePending, false, -1, false, 0, None, NoTrouble), CFind(0), 1)
  {
    run := [Quiet(Task(WStart, StatePending, false, -1, false, 0, None, NoTrouble), CFind(0), 1)];
  }

  // ------------------------------------------------------------- the cancel arrives

  /** The worker is about to call fetchToFd and has passed its own check. */
  const Called := Task(WCall(1), StateRunning, true, 1, false, 0, None, NoTrouble)

  lemma CancelIsSent() returns (run: seq<State>)
    ensures |run| > 0 && IsRun(run)
    ensures Last(run) == Quiet(Called, CSent(0, 1), 2).(inbox := [1])
  {
    hide IsRun;
    run := WorkerReachesCall();
    run := Go(run, ByClient(), Quiet(Called.(canceled := false), CFlag(0), 2));
    run := Go(run, ByClient(), Quiet(Called, CLoad(0), 2));
    run := Go(run, ByClient(), Quiet(Called, CSend(0, 1), 2));
    run := Go(run, ByClient(), Quiet(Called, CSent(0, 1), 2).(inbox := [1]));
  }

  const Pending := map[1 := Request(true, false, 0)]

  /** The http service has handled the cancel of 1. */
  function Handled(task: Task, inbox: seq<int>, clock: int): State {
    State([task], [CSent(0, 1)], inbox, Pending, 2, clock, map[1 := 0], {})
  }

  lemma CancelIsHandled() returns (run: seq<State>)
    ensures |run| > 0 && IsRun(run)
    ensures Last(run) == Handled(Called, [], 0)
  {
    hide IsRun;
    run := CancelIsSent();
    FirstCancel();
    run := Go(run, StepDeliver, Handled(Called, [], 0));
  }

  lemma FirstCancel()
    ensures Deliver(Quiet(Called, CSent(0, 1), 2).(inbox := [1])) == Handled(Called, [], 0)
  {
    var s := Quiet(Called, CSent(0, 1), 2).(inbox := [1]);
    SameMap(CancelRequest(map[], 1, 0), Pending);
    SameSet(Deliver(s).purged, {});
  }

  // --------------------------------------------------- sixty seconds and another cancel

  const LATER: int := STALE_REQUEST_MS + 1

  /** The cancel of another id has dropped the entry of 1. */
  function Purged(task: Task, mine: map<int, Request>): State {
    State([task], [CSent(0, 1)], [], mine[2 := Request(true, false, LATER)], 2, LATER,
          map[1 := 0, 2 := LATER], {1})
  }

  lemma EntryIsDropped() returns (run: seq<State>)
    ensures |run| > 0 && IsRun(run)
    ensures Last(run) == Purged(Called, map[])
  {
    hide IsRun;
    run := CancelIsHandled();
    run := Go(run, StepTick(LATER), Handled(Called, [], LATER));
    run := Go(run, StepStray(2), Handled(Called, [2], LATER));
    SecondCancel();
    run := Go(run, StepDeliver, Purged(Called, map[]));
  }

  lemma SecondCancel()
    ensures Deliver(Handled(Called, [2], LATER)) == Purged(Called, map[])
  {
    var s := Handled(Called, [2], LATER);
    SameMap(CancelRequest(Pending, 2, LATER), map[2 := Request(true, false, LATER)]);
    assert Expired(Pending[1], LATER);
    SameSet(Deliver(s).purged, {1});
  }

  // -------------------------------------------------------------- the transfer is made

  /** A cancel() that set the flag in time, found the id and sent the http cancel,
      which was handled: and the task reads its response and completes.  Its worker
      stood between its check of the flag and the call for more than a minute, and
      meanwhile the cancel of another id dropped the entry as stale. */
  lemma StaleCancelIsLost()
    ensures exists run ::
      && |run| > 0 && IsRun(run)
      && |Last(run).tasks| == |Last(run).clients| == 1
      && Last(run).clients[0] == CSent(0, 1)
      && 1 in Last(run).served
      && Last(run).tasks[0].canceled
      && Last(run).tasks[0].state == Terminal(Completed)
  {
    hide IsRun;
    var run := EntryIsDropped();
    var claimed := map[1 := Request(false, true, LATER)];
    var k := Called.(worker := FCheck(1, LATER));
    SameMap(BeginRequest(Purged(Called, map[]).requests, 1, LATER), Purged(k, claimed).requests);
    run := Go(run, ByWorker(), Purged(k, claimed));
    run := Go(run, ByWorker(), Purged(k.(worker := FRead(1, LATER)), claimed));
    k := k.(received := 1, last := Some(Whole), worker := FEnd(1, LATER, Completed));
    run := Go(run, ByWorker(), Purged(k, claimed));
    run := Completes(run, k, claimed);
  }

  lemma Completes(run: seq<State>, k: Task, claimed: map<int, Request>) returns (longer: seq<State>)
    requires |run| > 0 && IsRun(run) && Last(run) == Purged(k, claimed)
    requires k.worker == FEnd(1, LATER, Completed) && claimed == map[1 := Request(false, true, LATER)]
    ensures |longer| > 0 && IsRun(longer)
    ensures Last(longer) == Purged(k.(explained := true, state := Terminal(Completed), worker := WDone(true)), map[])
  {
    hide IsRun;
    SameMap(EndRequest(Purged(k, claimed).requests, 1), Purged(k, map[]).requests);
    longer := Go(run, ByWorker(), Purged(k.(worker := WReturn(1, Completed)), map[]));
    longer := Go(longer, ByWorker(), Purged(k.(worker := WMessage(true, Completed)), map[]));
    var told := k.(explained := true, worker := WState(true, Completed));
    longer := Go(longer, ByWorker(), Purged(told, map[]));
    longer := Go(longer, ByWorker(), Purged(told.(state := Terminal(Completed), worker := WDone(true)), map[]));
  }
}
