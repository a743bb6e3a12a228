/** Whatever the interleaving of worker and callbacks: what the counter shows, and
    what it ends at. */
module ByteCounterSafety {
  import opened Common
  import opened ByteCounter

  // ------------------------------------------------------------- the invariant

  /** What handling a message will leave in `downloaded`. */
  function Value(job: Job, m: Message): int {
    match m
    case OnResponseStart(offset, _) => offset
    case OnBytesReceived(received, _) => job.start + received
  }

  predicate MessageOk(job: Job, m: Message) {
    match m
    case OnResponseStart(offset, total) => offset == job.start && total == job.announced
    case OnBytesReceived(_, total) => total == job.announced
  }

  predicate RelayOk(job: Job, r: Relay) {
    match r
    case RelayIdle => true
    case StoreResumed(offset, announced) => offset == job.start && announced == job.announced
    case StoreTotal(offset, announced) => offset == job.start && announced == job.announced
    case StoreOffset(offset) => offset == job.start
    case LoadResumed(_, announced) => announced == job.announced
    case StoreDone(_, announced) => announced == job.announced
    case StoreKnownTotal(announced) => announced == job.announced
  }

  /** The transfer has begun: onResponseStart has been sent. */
  predicate Started(w: Worker) {
    !w.InitDownloaded? && !w.InitResumed? && !w.FetchHead? && (w.GaveUp? ==> w.started)
  }

  predicate StartQueued(s: State) {
    s.queue != [] && s.queue[0].OnResponseStart?
  }

  /** And it has stored `resumedFrom`. */
  predicate StartStored(s: State) {
    Started(s.worker) && !StartQueued(s) && !s.relay.StoreResumed?
  }

  /** Whether the callback being handled has yet to write `downloaded`, and what. */
  predicate Writing(r: Relay) {
    !r.RelayIdle? && !r.StoreKnownTotal?
  }

  function Writes(job: Job, r: Relay): int
    requires Writing(r)
  {
    match r
    case StoreResumed(offset, _) => offset
    case StoreTotal(offset, _) => offset
    case StoreOffset(offset) => offset
    case LoadResumed(received, _) => job.start + received
    case StoreDone(done, _) => done
  }

  predicate Begun(w: Worker) {
    !w.InitDownloaded? && !w.InitResumed?
  }

  predicate Returned(w: Worker) {
    w.LoadOffset? || w.StoreDownloaded? || w.Rename? || w.StoreFinal? || w.Done?
  }

  predicate Inv(s: State, job: Job) {
    Queued(s, job) && Ordered(s, job) && Real(s, job)
  }

  predicate InOrder(queue: seq<Message>, job: Job) {
    forall i :: 0 <= i < |queue| ==> MessageOk(job, queue[i]) && (i > 0 ==> queue[i].OnBytesReceived?)
  }

  /** Callbacks come in order, onResponseStart first and once. */
  predicate Queued(s: State, job: Job) {
    && InOrder(s.queue, job)
    && RelayOk(job, s.relay)
    && (!Started(s.worker) ==> s.queue == [] && s.relay == RelayIdle)
    && (s.relay != RelayIdle ==> !StartQueued(s))
    && (Begun(s.worker) ==> s.resumedFrom == if StartStored(s) then job.start else job.resumeFrom)
  }

  /** The last word on `downloaded` is the end of the body, unless it is the worker's
      and the worker looked at `resumedFrom` too early. */
  predicate Ordered(s: State, job: Job) {
    && (s.stale ==> Returned(s.worker) || s.worker.GaveUp?)
    && (s.stale ==> job.start != job.resumeFrom)
    && (s.worker.LoadOffset? ==> !s.stale)
    && (s.workerLast ==> s.worker.Rename? || s.worker.StoreFinal? || s.worker.Done? || s.worker.GaveUp?)
    && (s.worker.StoreDownloaded? ==> s.worker.sum == Sum(s, job))
    && (Returned(s.worker) ==>
          if s.queue != [] then Value(job, s.queue[|s.queue| - 1]) == EndOfBody(job)
          else if Writing(s.relay) then Writes(job, s.relay) == EndOfBody(job)
          else s.downloaded == if s.workerLast then Sum(s, job) else EndOfBody(job))
    && (s.worker.Done? ==> s.total == FileSize(job) || s.total == job.announced)
  }

  /** What the worker adds up. */
  function Sum(s: State, job: Job): int {
    if s.stale then job.resumeFrom + job.body else EndOfBody(job)
  }

  /** What is on its way to `downloaded`, and what it is, are counts that have been
      reached. */
  predicate Real(s: State, job: Job) {
    && 0 in s.reached
    && Reported(s.queue, s.reached)
    && (s.relay.LoadResumed? ==> s.relay.received in s.reached)
    && (s.relay.StoreDone? ==> s.relay.done - job.start in s.reached)
    && (s.worker.FetchBody? ==> s.worker.written in s.reached && s.worker.written <= job.body)
    && (s.worker.FetchTail? || Returned(s.worker) ==> job.body in s.reached)
    && (!s.worker.InitDownloaded? ==>
          || s.downloaded == job.resumeFrom
          || s.downloaded - job.start in s.reached
          || (s.stale && s.downloaded == job.resumeFrom + job.body))
    && (forall n <- s.reached :: 0 <= n <= Written(s.worker, job))
  }

  predicate Reported(queue: seq<Message>, reached: set<int>) {
    forall i :: 0 <= i < |queue| && queue[i].OnBytesReceived? ==> queue[i].received in reached
  }

  /** How much the transfer has written, at most. */
  function Written(w: Worker, job: Job): int {
    match w
    case InitDownloaded => 0
    case InitResumed => 0
    case FetchHead => 0
    case FetchBody(written) => written
    case _ => job.body
  }

  lemma RelayInv(s: State, job: Job)
    requires Inv(s, job)
    ensures Inv(RelayNext(s), job)
  {
    RelayQueued(s, job);
    RelayOrdered(s, job);
    RelayReal(s, job);
    hide Queued, Ordered, Real;
  }

  lemma RelayQueued(s: State, job: Job)
    requires Queued(s, job)
    ensures Queued(RelayNext(s), job)
  {
  }

  lemma RelayOrdered(s: State, job: Job)
    requires Queued(s, job) && Ordered(s, job)
    ensures Ordered(RelayNext(s), job)
  {
  }

  lemma RelayReal(s: State, job: Job)
    requires Queued(s, job) && Real(s, job)
    ensures Real(RelayNext(s), job)
  {
  }

  lemma WorkerInv(s: State, job: Job, e: Event)
    requires Inv(s, job) && e.WorkerStep?
    ensures Inv(WorkerNext(s, job, e), job)
  {
    WorkerQueued(s, job, e);
    WorkerOrdered(s, job, e);
    WorkerReal(s, job, e);
    hide Queued, Ordered, Real;
  }

  lemma WorkerQueued(s: State, job: Job, e: Event)
    requires Queued(s, job) && e.WorkerStep?
    ensures Queued(WorkerNext(s, job, e), job)
  {
  }

  lemma WorkerOrdered(s: State, job: Job, e: Event)
    requires Queued(s, job) && Ordered(s, job) && e.WorkerStep?
    ensures Ordered(WorkerNext(s, job, e), job)
  {
  }

  lemma WorkerReal(s: State, job: Job, e: Event)
    requires Inv(s, job) && e.WorkerStep?
    ensures Real(WorkerNext(s, job, e), job)
  {
    if s.worker.FetchBody? {
      BodyReal(s, job, e);
      hide Real, WorkerNext;
    } else {
      var s' := WorkerNext(s, job, e);
      hide Reported, Queued;
      if s.worker.FetchHead? || s.worker.FetchTail? { ReportAdded(s.queue, s'.queue, s.reached, s'.reached); }
    }
  }

  lemma BodyReal(s: State, job: Job, e: Event)
    requires Real(s, job) && e.WorkerStep? && s.worker.FetchBody?
    ensures Real(WorkerNext(s, job, e), job)
  {
    var s' := WorkerNext(s, job, e);
    hide Reported;
    ReportAdded(s.queue, s'.queue, s.reached, s'.reached);
  }

  lemma ReportAdded(q: seq<Message>, q': seq<Message>, reached: set<int>, reached': set<int>)
    requires Reported(q, reached) && reached <= reached'
    requires q' == q || exists m :: q' == q + [m] && (m.OnBytesReceived? ==> m.received in reached')
    ensures Reported(q', reached')
  {
  }

  lemma StepInv(s: State, job: Job, e: Event)
    requires Inv(s, job)
    ensures Inv(Step(s, job, e), job)
  {
    hide Inv, RelayNext, WorkerNext;
    if e.RelayStep? { RelayInv(s, job); } else { WorkerInv(s, job, e); }
  }

  lemma {:induction false} RunInv(job: Job, schedule: seq<Event>)
    ensures Inv(Run(job, schedule), job)
  {
    if schedule != [] {
      RunInv(job, schedule[..|schedule| - 1]);
      StepInv(Run(job, schedule[..|schedule| - 1]), job, schedule[|schedule| - 1]);
    }
  }

  predicate Drained(s: State) {
    s.worker == Done && s.queue == [] && s.relay == RelayIdle
  }

  /** In every interleaving: once the task has completed and its callbacks have
      drained, `downloaded` is where the body ended; except if the worker loaded
      `resumedFrom` before the callback had stored it and no callback stored
      `downloaded` after the worker.  Then it is where the worker had asked to start,
      and the whole body more. */
  lemma DrainedCounterIsExact(job: Job, schedule: seq<Event>)
    requires Drained(Run(job, schedule))
    ensures var s := Run(job, schedule);
      && (s.downloaded == EndOfBody(job) <==> !(s.stale && s.workerLast))
      && (s.stale && s.workerLast ==> s.downloaded == job.resumeFrom + job.body)
  {
    RunInv(job, schedule);
  }

  /** A server that starts where it was asked to leaves nothing to race for: then
      `downloaded` is the size of the file, and `total` that or what the server
      announced, -1 for nothing, if a callback came last. */
  lemma HonouredCounterIsExact(job: Job, schedule: seq<Event>)
    requires Honoured(job) && Drained(Run(job, schedule))
    ensures var s := Run(job, schedule);
      s.downloaded == FileSize(job) && (s.total == FileSize(job) || s.total == job.announced)
  {
    RunInv(job, schedule);
  }

  /** When the worker looks too early: exactly if it loads `resumedFrom` while
      onResponseStart has not been handled that far, and the server did not start
      where it was asked to. */
  lemma StaleExactly(job: Job, schedule: seq<Event>, e: Event)
    requires e.WorkerStep? && Run(job, schedule).worker.LoadOffset?
    ensures Run(job, schedule + [e]).stale <==> !StartStored(Run(job, schedule)) && !Honoured(job)
  {
    RunInv(job, schedule);
    Extended(job, schedule, e);
  }

  lemma Extended(job: Job, schedule: seq<Event>, e: Event)
    ensures Run(job, schedule + [e]) == Step(Run(job, schedule), job, e)
  {
    assert (schedule + [e])[..|schedule|] == schedule;
  }

  /** Whoever reads `downloaded` while the task runs sees where it resumed, or where
      the server started and a count of bytes that had been written by then, however
      callbacks and worker race. */
  lemma ProgressIsReal(job: Job, schedule: seq<Event>)
    ensures var s := Run(job, schedule);
      && (s.worker.FetchBody? ==>
            || s.downloaded == job.resumeFrom
            || (s.downloaded - job.start in s.reached && 0 <= s.downloaded - job.start <= s.worker.written))
      && (forall i :: 0 <= i < |s.queue| && s.queue[i].OnBytesReceived? ==> s.queue[i].received in s.reached)
  {
    RunInv(job, schedule);
  }

  /** What one turn of the body does: so many bytes more, never too many, and a report
      of exactly that count if one is due; and what breaks it ends it for good. */
  lemma BodyIsReported(job: Job, schedule: seq<Event>, e: Event)
    requires e.WorkerStep? && Run(job, schedule).worker.FetchBody?
    ensures var s, s' := Run(job, schedule), Run(job, schedule + [e]); var now := Min(s.worker.written + e.n, job.body);
      if e.breaks then s' == s.(worker := GaveUp(true))
      else if s.worker.written == job.body then s' == s.(worker := FetchTail)
      else s'.worker == FetchBody(now) && now in s'.reached
           && s'.queue == if e.report then s.queue + [OnBytesReceived(now, job.announced)] else s.queue
  {
    RunInv(job, schedule);
    Extended(job, schedule, e);
  }

  lemma GivenUpStays(s: State, job: Job, e: Event)
    requires s.worker.GaveUp?
    ensures Step(s, job, e).worker == s.worker
  {
  }

  lemma {:induction false} BreakingEnds(job: Job, schedule: seq<Event>, e: Event, more: seq<Event>)
    requires e.WorkerStep? && e.breaks
    requires var w := Run(job, schedule).worker; w.FetchHead? || w.FetchBody? || w.Rename?
    ensures Run(job, schedule + [e] + more).worker.GaveUp?
  {
    if more == [] {
      assert schedule + [e] + more == schedule + [e];
      Extended(job, schedule, e);
    } else {
      var n := |more| - 1;
      hide Run, WorkerNext;
      BreakingEnds(job, schedule, e, more[..n]);
      assert schedule + [e] + more == schedule + [e] + more[..n] + [more[n]];
      Extended(job, schedule + [e] + more[..n], more[n]);
      GivenUpStays(Run(job, schedule + [e] + more[..n]), job, more[n]);
    }
  }

  /** Nothing moves any more when the task is done and its callbacks have drained. */
  lemma {:induction false} DrainedStays(job: Job, schedule: seq<Event>, more: seq<Event>)
    requires Drained(Run(job, schedule))
    ensures Run(job, schedule + more) == Run(job, schedule)
  {
    var all := schedule + more;
    if more == [] {
      assert all == schedule;
    } else {
      assert all[..|all| - 1] == schedule + more[..|more| - 1];
      DrainedStays(job, schedule, more[..|more| - 1]);
    }
  }

  // ------------------------------------------------------------------------ the total

  /** No onResponseStart is left that has yet to store `total`. */
  predicate StartHandled(s: State) {
    StartStored(s) && !s.relay.StoreTotal?
  }

  predicate TotalKnown(s: State, job: Job) {
    Queued(s, job) && (StartHandled(s) && !s.worker.Done? ==> s.total == job.announced)
  }

  lemma StepTotal(s: State, job: Job, e: Event)
    requires Inv(s, job) && TotalKnown(s, job)
    ensures TotalKnown(Step(s, job, e), job)
  {
    StepInv(s, job, e);
  }

  /** While the task runs, the size announced shows from the first callback on; no
      progress callback takes it back. */
  lemma {:induction false} TotalIsAnnounced(job: Job, schedule: seq<Event>)
    ensures TotalKnown(Run(job, schedule), job)
  {
    RunInv(job, schedule);
    if schedule != [] {
      var n := |schedule| - 1;
      hide TotalKnown, Inv, Step;
      TotalIsAnnounced(job, schedule[..n]);
      RunInv(job, schedule[..n]);
      StepTotal(Run(job, schedule[..n]), job, schedule[n]);
    } else {
      assert Run(job, schedule) == Fresh;
    }
  }

  /** A callback about progress is still to come, or to store its total. */
  predicate ProgressLeft(s: State) {
    s.relay.LoadResumed? || s.relay.StoreDone? || s.relay.StoreKnownTotal? || s.queue != []
  }

  /** When the worker has stored the size of the file, and the first callback has been
      handled: what the total will be. */
  predicate TotalSettled(s: State, job: Job, from: bool) {
    && s.worker == Done && StartHandled(s)
    && if job.announced < 0 then s.total == FileSize(job)
       else if from then ProgressLeft(s) || s.total == job.announced
       else !ProgressLeft(s) && s.total == FileSize(job)
  }

  lemma StepSettled(s: State, job: Job, e: Event, from: bool)
    requires Inv(s, job) && TotalSettled(s, job, from)
    ensures TotalSettled(Step(s, job, e), job, from)
  {
  }

  lemma {:induction false} StaysSettled(job: Job, schedule: seq<Event>, more: seq<Event>, from: bool)
    requires TotalSettled(Run(job, schedule), job, from)
    ensures TotalSettled(Run(job, schedule + more), job, from)
  {
    if more == [] {
      assert schedule + more == schedule;
    } else {
      var n := |more| - 1;
      assert schedule + more == schedule + more[..n] + [more[n]];
      hide TotalSettled, Inv, Run, Step;
      StaysSettled(job, schedule, more[..n], from);
      RunInv(job, schedule + more[..n]);
      Extended(job, schedule + more[..n], more[n]);
      StepSettled(Run(job, schedule + more[..n]), job, more[n], from);
    }
  }

  /** What `total` ends at, once the first callback had been handled when the worker
      stored the size of the file: that size, unless the server announced one and a
      callback about progress was still to come. */
  lemma TotalIsExact(job: Job, schedule: seq<Event>, e: Event, more: seq<Event>)
    requires e.WorkerStep?
    requires Run(job, schedule).worker == StoreFinal && StartHandled(Run(job, schedule))
    requires Drained(Run(job, schedule + [e] + more))
    ensures Run(job, schedule + [e] + more).total ==
      if ProgressLeft(Run(job, schedule)) && job.announced >= 0 then job.announced else FileSize(job)
  {
    var from := ProgressLeft(Run(job, schedule));
    Extended(job, schedule, e);
    hide Inv;
    StaysSettled(job, schedule + [e], more, from);
  }

  // ----------------------------------------------------------------- callbacks too late

  const Work := WorkerStep(1, false, false)

  /** A body of one byte from the start, of unannounced size. */
  const Small := Job(0, 0, 1, -1)

  lemma Then(schedule: seq<Event>, e: Event, s': State, job: Job := Small) returns (longer: seq<Event>)
    requires Step(Run(job, schedule), job, e) == s'
    ensures Run(job, longer) == s'
  {
    longer := schedule + [e];
    Extended(job, schedule, e);
  }

  lemma SmallIsSent() returns (schedule: seq<Event>)
    ensures Run(Small, schedule)
         == State(0, 0, -1, [OnResponseStart(0, -1)], RelayIdle, FetchTail, {0, 1}, false, false)
  {
    schedule := Then([], Work, Fresh.(worker := InitResumed));
    hide Run;
    schedule := Then(schedule, Work, Fresh.(worker := FetchHead));
    var s := Fresh.(queue := [OnResponseStart(0, -1)]);
    schedule := Then(schedule, Work, s.(worker := FetchBody(0)));
    schedule := Then(schedule, Work, s.(worker := FetchBody(1), reached := {0, 1}));
    schedule := Then(schedule, Work, s.(worker := FetchTail, reached := {0, 1}));
  }

  function Late(downloaded: int, total: int, queue: seq<Message>, relay: Relay, worker: Worker,
                last: bool): State {
    State(downloaded, 0, total, queue, relay, worker, {0, 1}, false, last)
  }

  lemma SmallIsDone() returns (schedule: seq<Event>)
    ensures Run(Small, schedule) == Late(1, 1, [OnResponseStart(0, -1), OnBytesReceived(1, -1)], RelayIdle, Done, true)
  {
    hide Run;
    var q := [OnResponseStart(0, -1), OnBytesReceived(1, -1)];
    schedule := SmallIsSent();
    schedule := Then(schedule, Work, Late(0, -1, q, RelayIdle, LoadOffset, false));
    schedule := Then(schedule, Work, Late(0, -1, q, RelayIdle, StoreDownloaded(1), false));
    schedule := Then(schedule, Work, Late(1, -1, q, RelayIdle, Rename, true));
    schedule := Then(schedule, Work, Late(1, -1, q, RelayIdle, StoreFinal, true));
    schedule := Then(schedule, Work, Late(1, 1, q, RelayIdle, Done, true));
  }

  /** The first callback forgets the size that the worker has stored: when callbacks
      come last, the total of a finished download can be unknown. */
  lemma LateCallbackForgetsTotal()
    ensures exists schedule :: var s := Run(Small, schedule);
      s.worker == Done && s.queue == [] && s.relay == RelayIdle && s.downloaded == 1 && s.total == -1
  {
    hide Run;
    var q := [OnBytesReceived(1, -1)];
    var schedule := SmallIsDone();
    schedule := Then(schedule, RelayStep, Late(1, 1, q, StoreResumed(0, -1), Done, true));
    schedule := Then(schedule, RelayStep, Late(1, 1, q, StoreTotal(0, -1), Done, true));
    schedule := Then(schedule, RelayStep, Late(1, -1, q, StoreOffset(0), Done, true));
    schedule := Then(schedule, RelayStep, Late(0, -1, q, RelayIdle, Done, false));
    schedule := Then(schedule, RelayStep, Late(0, -1, [], LoadResumed(1, -1), Done, false));
    schedule := Then(schedule, RelayStep, Late(0, -1, [], StoreDone(1, -1), Done, false));
    schedule := Then(schedule, RelayStep, Late(1, -1, [], StoreKnownTotal(-1), Done, false));
    schedule := Then(schedule, RelayStep, Late(1, -1, [], RelayIdle, Done, false));
  }

  // ----------------------------------------------------------------- a refused resume

  /** Two bytes are there, the server starts over and sends one. */
  const Over := Job(2, 0, 1, -1)

  function Racing(downloaded: int, resumedFrom: int, total: int, queue: seq<Message>, relay: Relay,
                  worker: Worker): State {
    State(downloaded, resumedFrom, total, queue, relay, worker, {0, 1}, true, false)
  }

  lemma OverIsLoaded() returns (schedule: seq<Event>)
    ensures Run(Over, schedule) == Racing(2, 2, -1, [OnResponseStart(0, -1), OnBytesReceived(1, -1)], RelayIdle,
                                          StoreDownloaded(3))
  {
    var s := Fresh.(downloaded := 2);
    schedule := Then([], Work, s.(worker := InitResumed), Over);
    hide Run;
    s := s.(resumedFrom := 2);
    schedule := Then(schedule, Work, s.(worker := FetchHead), Over);
    s := s.(queue := [OnResponseStart(0, -1)]);
    schedule := Then(schedule, Work, s.(worker := FetchBody(0)), Over);
    s := s.(reached := {0, 1});
    schedule := Then(schedule, Work, s.(worker := FetchBody(1)), Over);
    schedule := Then(schedule, Work, s.(worker := FetchTail), Over);
    s := s.(queue := [OnResponseStart(0, -1), OnBytesReceived(1, -1)]);
    schedule := Then(schedule, Work, s.(worker := LoadOffset), Over);
    schedule := Then(schedule, Work, s.(worker := StoreDownloaded(3), stale := true), Over);
  }

  lemma OverIsRelayed() returns (schedule: seq<Event>)
    ensures Run(Over, schedule) == Racing(1, 0, -1, [], RelayIdle, StoreDownloaded(3))
  {
    hide Run;
    var q, w := [OnBytesReceived(1, -1)], StoreDownloaded(3);
    schedule := OverIsLoaded();
    schedule := Then(schedule, RelayStep, Racing(2, 2, -1, q, StoreResumed(0, -1), w), Over);
    schedule := Then(schedule, RelayStep, Racing(2, 0, -1, q, StoreTotal(0, -1), w), Over);
    schedule := Then(schedule, RelayStep, Racing(2, 0, -1, q, StoreOffset(0), w), Over);
    schedule := Then(schedule, RelayStep, Racing(0, 0, -1, q, RelayIdle, w), Over);
    schedule := Then(schedule, RelayStep, Racing(0, 0, -1, [], LoadResumed(1, -1), w), Over);
    schedule := Then(schedule, RelayStep, Racing(0, 0, -1, [], StoreDone(1, -1), w), Over);
    schedule := Then(schedule, RelayStep, Racing(1, 0, -1, [], StoreKnownTotal(-1), w), Over);
    schedule := Then(schedule, RelayStep, Racing(1, 0, -1, [], RelayIdle, w), Over);
  }

  /** The download is complete, one byte long, and shows three bytes of one. */
  lemma RefusedResumeOvercounts()
    ensures exists schedule :: var s := Run(Over, schedule); Drained(s) && s.downloaded == 3 && s.total == 1
  {
    hide Run;
    var schedule := OverIsRelayed();
    var s := Racing(3, 0, -1, [], RelayIdle, Rename).(workerLast := true);
    schedule := Then(schedule, Work, s, Over);
    schedule := Then(schedule, Work, s.(worker := StoreFinal), Over);
    schedule := Then(schedule, Work, s.(worker := Done, total := 1), Over);
  }
}
