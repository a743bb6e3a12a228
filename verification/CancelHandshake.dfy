/** Cancelling a download: the handshake between DownloadService::cancel, the
    worker thread in runTask, the oneway messages to the http service and the
    request map of HttpService.

    Any number of tasks, each with its worker, and any number of cancel() calls
    interleave with the http service handling its oneway messages in order.
    Every load and store of a task atomic and every critical section of the
    http service is one step; a binder call is one step of its caller followed
    by the steps of the callee. */
module CancelHandshake {
  import opened Common

  /** kStaleRequestMs */
  const STALE_REQUEST_MS: int := 60 * 1000

  datatype Verdict = Completed | Failed | Canceled

  datatype TaskState = StatePending | StateRunning | Terminal(verdict: Verdict)

  /** The next step of a worker: runTask, and inside the call fetchToFd. */
  datatype Worker =
    | WStart
    | WNewId
    | WPublish(id: int)
    | WCheck(id: int)
    | WCall(id: int)
    | FCheck(id: int, claimed: int)                  // before a socket read: the cancel flag
    | FRead(id: int, claimed: int)                   // the socket read
    | FEnd(id: int, claimed: int, verdict: Verdict)  // endRequest
    | WReturn(id: int, verdict: Verdict)
    | WMessage(fetched: bool, verdict: Verdict)      // finish: the message
    | WState(fetched: bool, verdict: Verdict)        // finish: the state
    | WDone(fetched: bool)

  datatype ReadResult = More | Whole | Broken

  /** What has gone wrong with a task: a step before fetchToFd was called, the
      transfer, or the rename after it. */
  datatype Trouble = NoTrouble | BeforeCall | InTransfer | AtRename

  datatype Task = Task(
    worker: Worker,
    state: TaskState,
    canceled: bool,
    httpRequestId: int,
    explained: bool,             // message is set
    received: nat,               // socket reads made so far
    last: Option<ReadResult>,    // what the last one brought
    trouble: Trouble)

  /** One call of DownloadService::cancel on a task. */
  datatype Client =
    | CFind(task: nat)
    | CFlag(task: nat)
    | CLoad(task: nat)
    | CSend(task: nat, id: int)
    | CSent(task: nat, id: int)     // the http cancel is on its way
    | CUnsent(task: nat)            // no http service to send it to
    | CMissed(task: nat)            // there was no request id yet
    | CTooLate(task: nat)           // the task had ended

  /** HttpService::Request */
  datatype Request = Request(canceled: bool, running: bool, created: int)

  datatype State = State(
    tasks: seq<Task>,
    clients: seq<Client>,
    inbox: seq<int>,              // oneway http cancels not yet handled
    requests: map<int, Request>,  // mRequests
    nextId: int,
    clock: int,
    served: map<int, int>,        // ids whose cancel was handled, and when the entry was made
    purged: set<int>)             // ids whose entry was dropped as stale, and not cancelled again

  /** What the environment decides in a step: whether something fails, a call does
      not reach the http service, the server redirects, what a read brings, and
      whether there is an http service to send a cancel to. */
  datatype Choice = Choice(fail: bool, lost: bool, hop: bool, read: ReadResult, proxyAlive: bool)

  // -------------------------------------------------------------- http service

  /** beginRequest */
  function BeginRequest(requests: map<int, Request>, id: int, now: int): map<int, Request> {
    if id in requests then requests[id := requests[id].(running := true)]
    else requests[id := Request(false, true, now)]
  }

  /** endRequest */
  function EndRequest(requests: map<int, Request>, id: int): map<int, Request> {
    requests - {id}
  }

  predicate Expired(r: Request, now: int) {
    !r.running && now - r.created > STALE_REQUEST_MS
  }

  function Purge(requests: map<int, Request>, now: int): map<int, Request> {
    map i | i in requests && !Expired(requests[i], now) :: requests[i]
  }

  /** HttpService::cancel */
  function CancelRequest(requests: map<int, Request>, id: int, now: int): map<int, Request> {
    if id in requests then requests[id := requests[id].(canceled := true)]
    else Purge(requests, now)[id := Request(true, false, now)]
  }

  // ------------------------------------------------------------------ the steps

  /** The cancel flag that a transfer looks at: the one in its map entry. */
  predicate FlagSeen(requests: map<int, Request>, id: int) {
    id in requests && requests[id].canceled
  }

  /** fetchToFd has not been called. */
  predicate Preparing(w: Worker) {
    w.WStart? || w.WNewId? || w.WPublish? || w.WCheck? || w.WCall?
  }

  /** Between beginRequest and endRequest. */
  predicate InFetch(w: Worker) {
    w.FCheck? || w.FRead? || w.FEnd?
  }

  /** What a worker's step leaves behind. */
  datatype Outcome = Outcome(task: Task, requests: map<int, Request>, nextId: int)

  /** It goes wrong before fetchToFd is called. */
  function NotCalled(k: Task): Task {
    k.(worker := WMessage(false, Failed), trouble := BeforeCall)
  }

  /** One step of runTask before the http service is at work. */
  function Prepare(k: Task, requests: map<int, Request>, nextId: int, now: int, ch: Choice): Outcome
    requires Preparing(k.worker)
  {
    match k.worker
    case WStart =>
      var started := k.(state := StateRunning);
      Outcome(if ch.fail then NotCalled(started) else started.(worker := WNewId), requests, nextId)
    case WNewId =>
      if ch.fail then Outcome(NotCalled(k), requests, nextId)
      else Outcome(k.(worker := WPublish(nextId)), requests, nextId + 1)
    case WPublish(id) => Outcome(k.(httpRequestId := id, worker := WCheck(id)), requests, nextId)
    case WCheck(id) =>
      Outcome(k.(worker := if k.canceled then WMessage(false, Canceled) else WCall(id)), requests, nextId)
    case WCall(id) =>
      if ch.fail then Outcome(NotCalled(k), requests, nextId)
      else if ch.lost then Outcome(k.(worker := WReturn(id, Failed), trouble := InTransfer), requests, nextId)
      else Outcome(k.(worker := FCheck(id, now)), BeginRequest(requests, id, now), nextId)
  }

  /** One step inside fetchToFd. */
  function Transfer(k: Task, requests: map<int, Request>, nextId: int, ch: Choice): Outcome
    requires InFetch(k.worker)
  {
    match k.worker
    case FCheck(id, at) =>
      Outcome(if FlagSeen(requests, id) then k.(worker := FEnd(id, at, Canceled))
              else if ch.fail then k.(worker := FEnd(id, at, Failed), trouble := InTransfer)
              else if ch.hop then k
              else k.(worker := FRead(id, at)),
              requests, nextId)
    case FRead(id, at) =>
      var read := k.(received := k.received + 1, last := Some(ch.read));
      Outcome(match ch.read
              case More => read.(worker := FCheck(id, at))
              case Whole => read.(worker := FEnd(id, at, Completed))
              case Broken => read.(worker := FEnd(id, at, Failed), trouble := InTransfer),
              requests, nextId)
    case FEnd(id, _, verdict) =>
      Outcome(k.(worker := WReturn(id, verdict)), EndRequest(requests, id), nextId)
  }

  /** One step of runTask when fetchToFd has returned, or was not called. */
  function Finish(k: Task, ch: Choice): Task
    requires !Preparing(k.worker) && !InFetch(k.worker)
  {
    match k.worker
    case WReturn(_, verdict) =>
      if verdict == Completed && ch.fail then k.(worker := WMessage(true, Failed), trouble := AtRename)
      else k.(worker := WMessage(true, if verdict != Completed && k.canceled then Canceled else verdict))
    case WMessage(fetched, verdict) => k.(explained := true, worker := WState(fetched, verdict))
    case WState(fetched, verdict) => k.(state := Terminal(verdict), worker := WDone(fetched))
    case WDone(_) => k
  }

  /** One step of the thread that works on `k`. */
  function Act(k: Task, requests: map<int, Request>, nextId: int, now: int, ch: Choice): Outcome {
    if Preparing(k.worker) then Prepare(k, requests, nextId, now, ch)
    else if InFetch(k.worker) then Transfer(k, requests, nextId, ch)
    else Outcome(Finish(k, ch), requests, nextId)
  }

  function WorkerStep(s: State, t: nat, ch: Choice): State
    requires t < |s.tasks|
  {
    var o := Act(s.tasks[t], s.requests, s.nextId, s.clock, ch);
    s.(tasks := s.tasks[t := o.task], requests := o.requests, nextId := o.nextId)
  }

  /** One step of a cancel() call. */
  function ClientStep(s: State, c: nat, ch: Choice): State
    requires c < |s.clients| && s.clients[c].task < |s.tasks|
  {
    var t := s.clients[c].task;
    match s.clients[c]
    case CFind(_) =>
      s.(clients := s.clients[c := if s.tasks[t].state.Terminal? then CTooLate(t) else CFlag(t)])
    case CFlag(_) =>
      s.(tasks := s.tasks[t := s.tasks[t].(canceled := true)], clients := s.clients[c := CLoad(t)])
    case CLoad(_) =>
      var id := s.tasks[t].httpRequestId;
      s.(clients := s.clients[c := if id >= 0 then CSend(t, id) else CMissed(t)])
    case CSend(_, id) =>
      if ch.proxyAlive
      then s.(clients := s.clients[c := CSent(t, id)], inbox := s.inbox + [id])
      else s.(clients := s.clients[c := CUnsent(t)])
    case _ => s
  }

  /** The http service handles the oldest cancel message. */
  function Deliver(s: State): State
    requires |s.inbox| > 0
  {
    var id := s.inbox[0];
    s.(inbox := s.inbox[1..],
       requests := CancelRequest(s.requests, id, s.clock),
       served := if id in s.requests && id in s.served then s.served else s.served[id := s.clock],
       purged := if id in s.requests then s.purged
                 else (s.purged - {id}) + (set i | i in s.requests && Expired(s.requests[i], s.clock)))
  }

  datatype Event =
    | StepWorker(t: nat, ch: Choice)
    | StepClient(c: nat, ch: Choice)
    | StepDeliver
    | StepStray(id: int)            // someone else cancels some id
    | StepTick(ms: nat)

  predicate Enabled(s: State, e: Event) {
    match e
    case StepWorker(t, _) => t < |s.tasks|
    case StepClient(c, _) => c < |s.clients| && s.clients[c].task < |s.tasks|
    case StepDeliver => |s.inbox| > 0
    case StepStray(_) => true
    case StepTick(_) => true
  }

  function Step(s: State, e: Event): State
    requires Enabled(s, e)
  {
    match e
    case StepWorker(t, ch) => WorkerStep(s, t, ch)
    case StepClient(c, ch) => ClientStep(s, c, ch)
    case StepDeliver => Deliver(s)
    case StepStray(id) => s.(inbox := s.inbox + [id])
    case StepTick(ms) => s.(clock := s.clock + ms)
  }

  /** Tasks just enqueued, cancel() calls just made. */
  predicate Init(s: State) {
    && (forall t :: 0 <= t < |s.tasks| ==>
          s.tasks[t] == Task(WStart, StatePending, false, -1, false, 0, None, NoTrouble))
    && (forall c :: 0 <= c < |s.clients| ==> s.clients[c].CFind? && s.clients[c].task < |s.tasks|)
    && s.inbox == [] && s.requests == map[] && s.nextId == 1 && s.served == map[] && s.purged == {}
  }

  ghost predicate Next(s: State, s': State) {
    exists e :: Enabled(s, e) && s' == Step(s, e)
  }

  ghost predicate IsRun(run: seq<State>) {
    && |run| > 0 && Init(run[0])
    && forall k :: 0 <= k < |run| - 1 ==> Next(run[k], run[k + 1])
  }
}
