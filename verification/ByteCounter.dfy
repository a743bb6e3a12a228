/** The progress counters of one download: the worker thread of runTask and the
    relay that handles the oneway callbacks of the http service, in order, both
    write `downloaded` and `total` without a lock. */
module ByteCounter {
  import opened Common

  /** A callback on its way from the http service. */
  datatype Message = OnResponseStart(offset: int, total: int) | OnBytesReceived(received: int, total: int)

  /** Where the relay is inside a callback: the stores still to come. */
  datatype Relay =
    | RelayIdle
    | StoreResumed(offset: int, announced: int)
    | StoreTotal(offset: int, announced: int)
    | StoreOffset(offset: int)
    | LoadResumed(received: int, announced: int)
    | StoreDone(done: int, announced: int)
    | StoreKnownTotal(announced: int)

  /** runTask and, inside the call, fetchToFd. */
  datatype Worker =
    | InitDownloaded
    | InitResumed
    | FetchHead
    | FetchBody(written: int)
    | FetchTail
    | LoadOffset
    | StoreDownloaded(sum: int)
    | Rename
    | StoreFinal
    | Done
    | GaveUp(started: bool)

  /** What one download is about: where it resumes, where the server starts, how
      many body bytes follow, and the size the server announces (-1: none). */
  datatype Job = Job(resumeFrom: nat, start: nat, body: nat, announced: int)

  datatype State = State(
    downloaded: int,
    resumedFrom: int,
    total: int,
    queue: seq<Message>,
    relay: Relay,
    worker: Worker,
    reached: set<int>,    // the counts of bytes written that there have been
    stale: bool,          // the worker loaded `resumedFrom` before it was stored
    workerLast: bool)     // the last store to `downloaded` is the worker's final one

  /** The server starts where asked; where it ends, and what size it announces, is
      up to it. */
  predicate Honoured(job: Job) {
    job.start == job.resumeFrom
  }

  /** Where the transfer ends, and the size of the file then: a body from the very
      start replaces what was there. */
  function EndOfBody(job: Job): int {
    job.start + job.body
  }

  function FileSize(job: Job): int {
    if job.start == 0 then job.body else Max(job.resumeFrom, EndOfBody(job))
  }

  /** What the environment decides: how many bytes arrive, whether a progress
      message is due, whether the transfer breaks. */
  datatype Event = RelayStep | WorkerStep(n: nat, report: bool, breaks: bool)

  function RelayNext(s: State): State {
    match s.relay
    case RelayIdle =>
      if s.queue == [] then s
      else s.(queue := s.queue[1..],
              relay := match s.queue[0]
                       case OnResponseStart(offset, total) => StoreResumed(offset, total)
                       case OnBytesReceived(received, total) => LoadResumed(received, total))
    case StoreResumed(offset, announced) => s.(resumedFrom := offset, relay := StoreTotal(offset, announced))
    case StoreTotal(offset, announced) => s.(total := announced, relay := StoreOffset(offset))
    case StoreOffset(offset) => s.(downloaded := offset, workerLast := false, relay := RelayIdle)
    case LoadResumed(received, announced) => s.(relay := StoreDone(s.resumedFrom + received, announced))
    case StoreDone(done, announced) =>
      s.(downloaded := done, workerLast := false, relay := StoreKnownTotal(announced))
    case StoreKnownTotal(announced) =>
      s.(total := if announced >= 0 then announced else s.total, relay := RelayIdle)
  }

  function WorkerNext(s: State, job: Job, e: Event): State
    requires e.WorkerStep?
  {
    match s.worker
    case InitDownloaded => s.(downloaded := job.resumeFrom, worker := InitResumed)
    case InitResumed => s.(resumedFrom := job.resumeFrom, worker := FetchHead)
    case FetchHead =>
      if e.breaks then s.(worker := GaveUp(false))
      else s.(queue := s.queue + [OnResponseStart(job.start, job.announced)], worker := FetchBody(0))
    case FetchBody(written) =>
      if e.breaks then s.(worker := GaveUp(true))
      else if written >= job.body then s.(worker := FetchTail)
      else
        var now := if e.n < job.body - written then written + e.n else job.body;
        s.(queue := if e.report then s.queue + [OnBytesReceived(now, job.announced)] else s.queue,
           worker := FetchBody(now),
           reached := s.reached + {now})
    case FetchTail =>
      s.(queue := s.queue + [OnBytesReceived(job.body, job.announced)], worker := LoadOffset)
    case LoadOffset =>
      s.(stale := s.resumedFrom != job.start, worker := StoreDownloaded(s.resumedFrom + job.body))
    case StoreDownloaded(sum) => s.(downloaded := sum, workerLast := true, worker := Rename)
    case Rename => s.(worker := if e.breaks then GaveUp(true) else StoreFinal)
    case StoreFinal => s.(total := FileSize(job), worker := Done)
    case Done => s
    case GaveUp(_) => s
  }

  function Step(s: State, job: Job, e: Event): State {
    if e.RelayStep? then RelayNext(s) else WorkerNext(s, job, e)
  }

  const Fresh := State(0, 0, -1, [], RelayIdle, InitDownloaded, {0}, false, false)

  /** The state after a schedule of steps of the two threads. */
  function Run(job: Job, schedule: seq<Event>): State {
    if schedule == [] then Fresh
    else Step(Run(job, schedule[..|schedule| - 1]), job, schedule[|schedule| - 1])
  }
}
