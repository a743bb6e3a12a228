/** How a task ends: what its verdict says of its transfer, and of its cancel. */
module CancelVerdicts {
  import opened Common
  import opened CancelHandshake
  import opened CancelSafety

  // ------------------------------------------------------------------ one task

  /** The verdict, once the worker has reached one. */
  function Reached(k: Task): Option<Verdict> {
    if k.state.Terminal? then Some(k.state.verdict)
    else
      match k.worker
      case FEnd(_, _, v) => Some(v)
      case WReturn(_, v) => Some(v)
      case WMessage(_, v) => Some(v)
      case WState(_, v) => Some(v)
      case _ => None
  }

  /** No verdict can change any more. */
  predicate Decided(w: Worker) {
    w.WMessage? || w.WState? || w.WDone?
  }

  /** The end of a task that was cancelled before its end was decided. */
  function CanceledEnd(k: Task): Verdict {
    if k.trouble == BeforeCall then Failed
    else if k.last == Some(Whole) then (if k.trouble == AtRename then Failed else Completed)
    else Canceled
  }

  /** What has happened to a task explains where it is. */
  predicate Explained(k: Task) {
    && (!Fetched(k.worker) ==> k.last == None && (k.trouble == NoTrouble || k.trouble == BeforeCall))
    && (Fetched(k.worker) ==> k.trouble != BeforeCall)
    && if Decided(k.worker) then
      && (k.worker.WDone? <==> k.state.Terminal?)
      && (k.trouble == AtRename ==> k.last == Some(Whole))
      && match Reached(k).value
         case Completed => k.last == Some(Whole) && k.trouble == NoTrouble
         case Failed => k.trouble != NoTrouble
         case Canceled => k.last != Some(Whole) && (k.trouble == NoTrouble || k.trouble == InTransfer)
    else
      && !k.state.Terminal?
      && match Reached(k)
         case None => k.trouble == NoTrouble && k.last != Some(Whole) && k.last != Some(Broken)
         case Some(v) =>
           && (v == Completed <==> k.last == Some(Whole))
           && k.trouble == if v == Failed then InTransfer else NoTrouble
  }

  lemma ActExplained(k: Task, requests: map<int, Request>, nextId: int, now: int, ch: Choice)
    requires Explained(k)
    ensures Explained(Act(k, requests, nextId, now, ch).task)
  {
    if Preparing(k.worker) {
      PrepareExplained(k, requests, nextId, now, ch);
    } else if InFetch(k.worker) {
      TransferExplained(k, requests, nextId, ch);
    } else {
      FinishExplained(k, ch);
    }
    hide Prepare, Transfer, Finish, Explained;
  }

  lemma PrepareExplained(k: Task, requests: map<int, Request>, nextId: int, now: int, ch: Choice)
    requires Explained(k) && Preparing(k.worker)
    ensures Explained(Prepare(k, requests, nextId, now, ch).task)
  {
    hide BeginRequest;
  }

  lemma TransferExplained(k: Task, requests: map<int, Request>, nextId: int, ch: Choice)
    requires Explained(k) && InFetch(k.worker)
    ensures Explained(Transfer(k, requests, nextId, ch).task)
  {
    hide EndRequest, FlagSeen;
  }

  lemma FinishExplained(k: Task, ch: Choice)
    requires Explained(k) && !Preparing(k.worker) && !InFetch(k.worker)
    ensures Explained(Finish(k, ch))
  {
  }

  /** Cancelled in time, and not past what its cancel makes of it. */
  predicate InTime(k: Task) {
    k.canceled && (Decided(k.worker) ==> Reached(k) == Some(CanceledEnd(k)))
  }

  lemma ActInTime(k: Task, requests: map<int, Request>, nextId: int, now: int, ch: Choice)
    requires Explained(k) && InTime(k)
    ensures InTime(Act(k, requests, nextId, now, ch).task)
  {
    hide BeginRequest, EndRequest, FlagSeen;
  }

  /** The body is not whole and will not be: the transfer is over, or sees its flag
      before it reads again. */
  predicate Stopped(k: Task, requests: map<int, Request>) {
    && k.last != Some(Whole) && Fetched(k.worker)
    && (Decided(k.worker) || k.worker.WReturn? || k.worker.FEnd?
        || (k.worker.FCheck? && FlagSeen(requests, k.worker.id)))
  }

  /** And it was the flag that stopped it, or will be. */
  predicate ByFlag(k: Task) {
    k.worker.FCheck? || Reached(k) == Some(Canceled)
  }

  lemma ActStopped(k: Task, requests: map<int, Request>, nextId: int, now: int, ch: Choice)
    requires Explained(k) && Stopped(k, requests)
    ensures var o := Act(k, requests, nextId, now, ch);
      && Stopped(o.task, o.requests)
      && o.task.last == k.last && o.task.received == k.received
      && (ByFlag(k) ==> ByFlag(o.task))
      && (Left(o.task.worker) < Left(k.worker) || k.worker.WDone?)
  {
    hide EndRequest;
  }

  /** The steps a stopped worker has left. */
  function Left(w: Worker): nat {
    match w
    case FCheck(_, _) => 5
    case FEnd(_, _, _) => 4
    case WReturn(_, _) => 3
    case WMessage(_, _) => 2
    case WState(_, _) => 1
    case _ => 0
  }

  // ------------------------------------------------------------------ all tasks

  /** Somebody else's step: at most the flag of the task is set. */
  predicate Untouched(k: Task, k': Task) {
    k' == k.(canceled := k'.canceled) && (k.canceled ==> k'.canceled)
  }

  /** What a step does to a task: its worker's step, or next to nothing. */
  lemma StepOnTask(s: State, e: Event, t: nat)
    requires Enabled(s, e) && t < |s.tasks|
    ensures var s' := Step(s, e);
      && |s'.tasks| == |s.tasks|
      && if e.StepWorker? && e.t == t
         then var o := Act(s.tasks[t], s.requests, s.nextId, s.clock, e.ch);
           s'.tasks[t] == o.task && s'.requests == o.requests
         else Untouched(s.tasks[t], s'.tasks[t])
  {
    hide Act, CancelRequest;
  }

  ghost predicate AllExplained(s: State) {
    forall t :: 0 <= t < |s.tasks| ==> Explained(s.tasks[t])
  }

  lemma NextExplained(s: State, s': State)
    requires AllExplained(s) && Next(s, s')
    ensures AllExplained(s')
  {
    var e :| Enabled(s, e) && s' == Step(s, e);
    hide Next, Step, Act, Enabled;
    forall t | 0 <= t < |s'.tasks| ensures Explained(s'.tasks[t]) {
      SameTasks(s, e);
      StepOnTask(s, e, t);
      assert Explained(s.tasks[t]);
      if e.StepWorker? && e.t == t { ActExplained(s.tasks[t], s.requests, s.nextId, s.clock, e.ch); }
    }
  }

  lemma SameTasks(s: State, e: Event)
    requires Enabled(s, e)
    ensures |Step(s, e).tasks| == |s.tasks|
  {
    hide Act, CancelRequest;
  }

  lemma {:induction false} RunExplained(run: seq<State>, k: nat)
    requires IsRun(run) && k < |run|
    ensures AllExplained(run[k])
  {
    hide Next, Explained, Init;
    if k == 0 {
      NewIsExplained(run[0]);
    } else {
      RunExplained(run, k - 1);
      assert Next(run[k - 1], run[k - 1 + 1]);
      NextExplained(run[k - 1], run[k]);
    }
  }

  lemma NewIsExplained(s: State)
    requires Init(s)
    ensures AllExplained(s)
  {
  }

  // ------------------------------------------------- nobody is cancelled unasked

  /** A cancel shows on an entry, or in a verdict, only if one was made. */
  ghost predicate Blamed(s: State) {
    && (forall id :: FlagSeen(s.requests, id) ==> id in s.served)
    && (forall t :: 0 <= t < |s.tasks| ==> CanceledBySomeone(s, s.tasks[t]))
  }

  predicate CanceledBySomeone(s: State, k: Task) {
    Reached(k) == Some(Canceled) ==> k.canceled || k.httpRequestId in s.served
  }

  lemma ActBlames(k: Task, requests: map<int, Request>, nextId: int, now: int, ch: Choice)
    requires TaskOk(k, nextId) && Explained(k)
    ensures var o := Act(k, requests, nextId, now, ch);
      && (forall id :: FlagSeen(o.requests, id) ==> FlagSeen(requests, id))
      && (Reached(o.task) == Some(Canceled) ==>
            || Reached(k) == Some(Canceled)
            || o.task.canceled
            || FlagSeen(requests, o.task.httpRequestId))
      && (Reached(k) == Some(Canceled) ==> o.task.httpRequestId == k.httpRequestId && o.task.canceled == k.canceled)
  {
  }

  lemma StepBlames(s: State, e: Event)
    requires Inv(s) && AllExplained(s) && Blamed(s) && Enabled(s, e)
    ensures Blamed(Step(s, e))
  {
    hide Act, Served, Entries, Clients, Dropped, TaskOk, Explained;
    var s' := Step(s, e);
    SameTasks(s, e);
    forall t | 0 <= t < |s'.tasks| ensures CanceledBySomeone(s', s'.tasks[t]) {
      StepOnTask(s, e, t);
      assert TaskOk(s.tasks[t], s.nextId) && Explained(s.tasks[t]) && CanceledBySomeone(s, s.tasks[t]);
      if e.StepWorker? && e.t == t { ActBlames(s.tasks[t], s.requests, s.nextId, s.clock, e.ch); }
    }
    if e.StepWorker? {
      assert TaskOk(s.tasks[e.t], s.nextId) && Explained(s.tasks[e.t]);
      ActBlames(s.tasks[e.t], s.requests, s.nextId, s.clock, e.ch);
    }
  }

  lemma NextBlames(s: State, s': State)
    requires Inv(s) && AllExplained(s) && Blamed(s) && Next(s, s')
    ensures Blamed(s')
  {
    hide Inv, AllExplained, Blamed, Step, Enabled;
    var e :| Enabled(s, e) && s' == Step(s, e);
    StepBlames(s, e);
  }

  lemma {:induction false} RunBlames(run: seq<State>, k: nat)
    requires IsRun(run) && k < |run|
    ensures Blamed(run[k])
  {
    hide Next, Inv, AllExplained;
    if k > 0 {
      RunBlames(run, k - 1);
      RunInv(run, k - 1);
      RunExplained(run, k - 1);
      assert Next(run[k - 1], run[k - 1 + 1]);
      hide Blamed;
      NextBlames(run[k - 1], run[k]);
    }
  }

  // --------------------------------------------------------------- what it promises

  /** A task has completed only if its last read made the body whole and the file was
      renamed; it has failed only if something went wrong; and it was cancelled only
      if somebody asked for that, before the body was whole. */
  lemma VerdictIsExplained(run: seq<State>, k: nat, t: nat)
    requires IsRun(run) && k < |run| && t < |run[k].tasks| && run[k].tasks[t].state.Terminal?
    ensures var task := run[k].tasks[t];
      match task.state.verdict
      case Completed => task.last == Some(Whole) && task.trouble == NoTrouble
      case Failed => task.trouble != NoTrouble
      case Canceled =>
        && task.last != Some(Whole) && (task.trouble == NoTrouble || task.trouble == InTransfer)
        && (task.canceled || task.httpRequestId in run[k].served)
  {
    hide Next, Inv;
    RunExplained(run, k);
    RunBlames(run, k);
    assert Explained(run[k].tasks[t]) && CanceledBySomeone(run[k], run[k].tasks[t]);
  }

  lemma NextInTime(s: State, s': State, t: nat)
    requires AllExplained(s) && Next(s, s') && t < |s.tasks| && InTime(s.tasks[t])
    ensures t < |s'.tasks| && InTime(s'.tasks[t])
  {
    var e :| Enabled(s, e) && s' == Step(s, e);
    hide Next, Step, Act, Enabled;
    StepOnTask(s, e, t);
    assert Explained(s.tasks[t]);
    if e.StepWorker? && e.t == t { ActInTime(s.tasks[t], s.requests, s.nextId, s.clock, e.ch); }
  }

  lemma {:induction false} StaysInTime(run: seq<State>, k: nat, n: nat, t: nat)
    requires IsRun(run) && k <= n < |run| && t < |run[k].tasks| && InTime(run[k].tasks[t])
    ensures t < |run[n].tasks| && InTime(run[n].tasks[t])
  {
    hide Next, InTime, Explained;
    if k < n {
      StaysInTime(run, k, n - 1, t);
      RunExplained(run, n - 1);
      assert Next(run[n - 1], run[n - 1 + 1]);
      NextInTime(run[n - 1], run[n], t);
    }
  }

  /** A task that is cancelled before its end is decided ends in one way only: failed
      if it never got to call fetchToFd; as if nothing had been said if the body was
      whole first; and otherwise cancelled, whatever else went wrong. */
  lemma CancelDecides(run: seq<State>, k: nat, n: nat, t: nat)
    requires IsRun(run) && k <= n < |run|
    requires t < |run[k].tasks| && run[k].tasks[t].canceled && !Decided(run[k].tasks[t].worker)
    ensures t < |run[n].tasks|
    ensures var task := run[n].tasks[t];
      task.state.Terminal? ==>
        task.state.verdict == if task.trouble == BeforeCall then Failed
                              else if task.last != Some(Whole) then Canceled
                              else if task.trouble == AtRename then Failed else Completed
  {
    hide Next;
    StaysInTime(run, k, n, t);
    RunExplained(run, n);
    assert Explained(run[n].tasks[t]);
  }

  // ------------------------------------------------------------------ the flag shows

  lemma StepStopped(s: State, e: Event, t: nat)
    requires Inv(s) && AllExplained(s) && Enabled(s, e)
    requires t < |s.tasks| && Stopped(s.tasks[t], s.requests)
    ensures var s' := Step(s, e);
      && t < |s'.tasks| && Stopped(s'.tasks[t], s'.requests)
      && var k, k' := s.tasks[t], s'.tasks[t];
      && k'.last == k.last && k'.received == k.received
      && (ByFlag(k) ==> ByFlag(k'))
      && if e.StepWorker? && e.t == t then Left(k'.worker) < Left(k.worker) || k.worker.WDone?
         else k'.worker == k.worker
  {
    if s.tasks[t].worker.FCheck? { StepStopping(s, e, t); }
    hide Act, Enabled, Inv, Explained;
    StepOnTask(s, e, t);
    hide Step;
    assert Explained(s.tasks[t]);
    if e.StepWorker? && e.t == t { ActStopped(s.tasks[t], s.requests, s.nextId, s.clock, e.ch); }
  }

  lemma NextStopped(s: State, s': State, t: nat)
    requires Inv(s) && AllExplained(s) && Next(s, s')
    requires t < |s.tasks| && Stopped(s.tasks[t], s.requests)
    ensures t < |s'.tasks| && Stopped(s'.tasks[t], s'.requests)
    ensures s'.tasks[t].last == s.tasks[t].last && s'.tasks[t].received == s.tasks[t].received
    ensures ByFlag(s.tasks[t]) ==> ByFlag(s'.tasks[t])
  {
    hide Inv, AllExplained, Stopped, ByFlag, Step, Enabled;
    var e :| Enabled(s, e) && s' == Step(s, e);
    StepStopped(s, e, t);
  }

  lemma {:induction false} StaysStopped(run: seq<State>, k: nat, n: nat, t: nat)
    requires IsRun(run) && k <= n < |run|
    requires t < |run[k].tasks| && Stopped(run[k].tasks[t], run[k].requests)
    ensures t < |run[n].tasks| && Stopped(run[n].tasks[t], run[n].requests)
    ensures var a, b := run[k].tasks[t], run[n].tasks[t];
      b.last == a.last && b.received == a.received && (ByFlag(a) ==> ByFlag(b))
  {
    hide Next, Inv, AllExplained, Stopped, ByFlag;
    if k < n {
      StaysStopped(run, k, n - 1, t);
      RunInv(run, n - 1);
      RunExplained(run, n - 1);
      assert Next(run[n - 1], run[n - 1 + 1]);
      NextStopped(run[n - 1], run[n], t);
    }
  }

  /** From the moment the flag of a transfer shows and no read is under way, unless the
      body is whole by then: not another read is made, and the task does not complete.
      It ends cancelled if it had yet to look at its flag, or if it is cancelled
      itself. */
  lemma FlagStops(run: seq<State>, k: nat, n: nat, t: nat)
    requires IsRun(run) && k <= n < |run| && t < |run[k].tasks|
    requires var task := run[k].tasks[t];
      && InFetch(task.worker) && FlagSeen(run[k].requests, IdOf(task.worker)) && Budget(task.worker) == 0
      && task.last != Some(Whole)
    ensures t < |run[n].tasks|
    ensures var before, task := run[k].tasks[t], run[n].tasks[t];
      && task.received == before.received
      && task.state != Terminal(Completed)
      && (task.state.Terminal? && (before.worker.FCheck? || before.canceled) ==> task.state == Terminal(Canceled))
  {
    hide Next;
    StaysStopped(run, k, n, t);
    RunExplained(run, k);
    RunExplained(run, n);
    assert Explained(run[k].tasks[t]) && Explained(run[n].tasks[t]);
    if run[k].tasks[t].canceled { CancelDecides(run, k, n, t); }
  }

  /** And it does end: every step of its worker brings it nearer, and no other's takes
      it back. */
  lemma StoppedEnds(run: seq<State>, k: nat, t: nat, e: Event)
    requires IsRun(run) && k < |run| && Enabled(run[k], e)
    requires t < |run[k].tasks| && Stopped(run[k].tasks[t], run[k].requests)
    ensures var s' := Step(run[k], e); var left, left' := Left(run[k].tasks[t].worker), Left(s'.tasks[t].worker);
      && Stopped(s'.tasks[t], s'.requests)
      && (left == 0 <==> run[k].tasks[t].state.Terminal?)
      && if e.StepWorker? && e.t == t && left > 0 then left' < left else left' == left
  {
    hide Next;
    RunInv(run, k);
    RunExplained(run, k);
    assert Explained(run[k].tasks[t]);
    hide Inv, Act, Step;
    StepStopped(run[k], e, t);
  }

  // ------------------------------------------------------- cancelled before the call

  lemma NextNeverFetches(s: State, s': State, t: nat)
    requires Inv(s) && AllExplained(s) && Next(s, s') && t < |s.tasks| && NeverFetches(s.tasks[t])
    ensures t < |s'.tasks| && NeverFetches(s'.tasks[t])
    ensures Published(s.tasks[t]) ==> Published(s'.tasks[t])
  {
    var e :| Enabled(s, e) && s' == Step(s, e);
    hide Next, Step, Act, Enabled, Entries, Served, Clients, Dropped, TaskOk, Explained;
    StepOnTask(s, e, t);
    assert TaskOk(s.tasks[t], s.nextId) && Explained(s.tasks[t]);
    if e.StepWorker? && e.t == t {
      ActTask(s.tasks[t], s.requests, s.nextId, s.clock, e.ch);
      if Published(s.tasks[t]) { ActPublished(s.tasks[t], s.requests, s.nextId, s.clock, e.ch); }
    }
  }

  /** Past all that can go wrong before the check of the flag. */
  predicate Published(k: Task) {
    k.worker.WPublish? || k.worker.WCheck? || Reached(k) == Some(Canceled)
  }

  lemma ActPublished(k: Task, requests: map<int, Request>, nextId: int, now: int, ch: Choice)
    requires Explained(k) && NeverFetches(k) && Published(k)
    ensures Published(Act(k, requests, nextId, now, ch).task)
  {
    hide BeginRequest, EndRequest, FlagSeen;
  }

  lemma {:induction false} StaysUnfetched(run: seq<State>, k: nat, n: nat, t: nat)
    requires IsRun(run) && k <= n < |run| && t < |run[k].tasks| && NeverFetches(run[k].tasks[t])
    ensures t < |run[n].tasks| && NeverFetches(run[n].tasks[t])
    ensures Published(run[k].tasks[t]) ==> Published(run[n].tasks[t])
  {
    hide Next, Inv, AllExplained, NeverFetches, Published;
    if k < n {
      StaysUnfetched(run, k, n - 1, t);
      RunInv(run, n - 1);
      RunExplained(run, n - 1);
      assert Next(run[n - 1], run[n - 1 + 1]);
      NextNeverFetches(run[n - 1], run[n], t);
    }
  }

  /** A task cancelled before its worker's check of the flag never reads, and ends
      cancelled; or failed, exactly if something went wrong before the check, for
      which it is too late once the request id is drawn. */
  lemma CanceledBeforeCall(run: seq<State>, k: nat, n: nat, t: nat)
    requires IsRun(run) && k <= n < |run| && t < |run[k].tasks| && NeverFetches(run[k].tasks[t])
    ensures t < |run[n].tasks|
    ensures var task := run[n].tasks[t];
      && !Fetched(task.worker)
      && (task.state.Terminal? ==>
            task.state == Terminal(if task.trouble == BeforeCall then Failed else Canceled))
      && (task.state.Terminal? && (run[k].tasks[t].worker.WPublish? || run[k].tasks[t].worker.WCheck?) ==>
            task.state == Terminal(Canceled))
  {
    hide Next;
    StaysUnfetched(run, k, n, t);
    RunExplained(run, n);
    assert Explained(run[n].tasks[t]);
  }

  // ------------------------------------------------------------- what goes wrong shows

  /** What the environment does to a worker in this step is a failure. */
  predicate GoesWrong(s: State, k: Task, ch: Choice) {
    match k.worker
    case WStart => ch.fail
    case WNewId => ch.fail
    case WCall(_) => ch.fail || ch.lost
    case FCheck(id, _) => ch.fail && !FlagSeen(s.requests, id)
    case FRead(_, _) => ch.read == Broken
    case WReturn(_, v) => ch.fail && k.last == Some(Whole)
    case _ => false
  }

  /** No failure is overlooked and none made up: the record of a task changes in the
      step in which something goes wrong, and in no other. */
  lemma TroubleIsNoticed(run: seq<State>, k: nat, t: nat, ch: Choice)
    requires IsRun(run) && k < |run| && t < |run[k].tasks|
    ensures var task, task' := run[k].tasks[t], WorkerStep(run[k], t, ch).tasks[t];
      && (GoesWrong(run[k], task, ch) <==> task'.trouble != task.trouble)
      && (GoesWrong(run[k], task, ch) && !Fetched(task'.worker) ==> task'.worker == WMessage(false, Failed))
  {
    hide Next;
    RunExplained(run, k);
    assert Explained(run[k].tasks[t]);
  }

  /** Nothing stands in the way of a task that is left alone: each of its steps takes
      it on, a redirect or a read that brings more apart. */
  function Steps(w: Worker): nat {
    match w
    case WStart => 10
    case WNewId => 9
    case WPublish(_) => 8
    case WCheck(_) => 7
    case WCall(_) => 6
    case FCheck(_, _) => 5
    case FRead(_, _) => 5
    case FEnd(_, _, _) => 4
    case WReturn(_, _) => 3
    case WMessage(_, _) => 2
    case WState(_, _) => 1
    case WDone(_) => 0
  }

  /** From `k` to `k'`: on, or around the loop of reads. */
  predicate GetsOn(k: Task, k': Task, flag: bool, ch: Choice) {
    || Steps(k'.worker) < Steps(k.worker)
    || (k.worker.WDone? && k' == k)
    || (k.worker.FCheck? && !flag
        && k' == if ch.hop then k else k.(worker := FRead(k.worker.id, k.worker.claimed)))
    || (k.worker.FRead? && ch.read == More && k'.received == k.received + 1
        && k'.worker == FCheck(k.worker.id, k.worker.claimed))
  }

  lemma TransferGetsOn(k: Task, requests: map<int, Request>, nextId: int, ch: Choice)
    requires InFetch(k.worker)
    ensures GetsOn(k, Transfer(k, requests, nextId, ch).task, FlagSeen(requests, IdOf(k.worker)), ch)
  {
    hide EndRequest, FlagSeen;
  }

  lemma WorkerGetsOn(s: State, t: nat, ch: Choice)
    requires t < |s.tasks|
    ensures var k, k' := s.tasks[t], WorkerStep(s, t, ch).tasks[t];
      GetsOn(k, k', FlagSeen(s.requests, IdOf(k.worker)), ch)
  {
    var k := s.tasks[t];
    hide BeginRequest;
    if InFetch(k.worker) {
      TransferGetsOn(k, s.requests, s.nextId, ch);
      hide GetsOn, Transfer;
    }
  }

  // ----------------------------------------------------------------------- cancel()

  /** How far a cancel() call has got. */
  function Asked(c: Client): nat {
    match c
    case CFind(_) => 0
    case CFlag(_) => 1
    case CLoad(_) => 2
    case CSend(_, _) => 3
    case _ => 4
  }

  /** Every step of a cancel() call takes it on, and no step of it does anything but
      set the flag of its task and send one message.  A task that has ended is left
      alone; a request id that has been drawn is found. */
  lemma CancelGetsOn(run: seq<State>, k: nat, c: nat, ch: Choice)
    requires IsRun(run) && k < |run| && c < |run[k].clients|
    ensures run[k].clients[c].task < |run[k].tasks|
    ensures var s := run[k]; var s' := ClientStep(s, c, ch); var t := s.clients[c].task;
      var a, b := s.clients[c], s'.clients[c];
      && b.task == t
      && (Asked(a) < 4 ==> Asked(b) > Asked(a)) && (Asked(a) == 4 ==> s' == s)
      && s' == s.(clients := s'.clients, tasks := s'.tasks, inbox := s'.inbox)
      && s'.tasks == (if a.CFlag? then s.tasks[t := s.tasks[t].(canceled := true)] else s.tasks)
      && s'.inbox == (if a.CSend? && ch.proxyAlive then s.inbox + [a.id] else s.inbox)
      && (a.CFind? ==> (b == CTooLate(t) <==> s.tasks[t].state.Terminal?))
      && (a.CLoad? ==> (b == CMissed(t) <==> s.tasks[t].httpRequestId == -1))
      && (a.CSend? ==> b == if ch.proxyAlive then CSent(t, a.id) else CUnsent(t))
  {
    RunInv(run, k);
    hide Next, Entries, Served, Dropped;
    var s := run[k];
    assert ClientOk(s, s.clients[c]) && TaskOk(s.tasks[s.clients[c].task], s.nextId);
  }
}
