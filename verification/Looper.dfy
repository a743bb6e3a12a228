/** Looper: a queue of messages sorted by due time, a thread that sleeps in
    epoll_wait until the head is due, and senders on any thread that wake it
    only when that is judged necessary. */
module Looper {
  import opened Common

  const INT_MAX: int := 0x7fff_ffff
  const LLONG_MAX: int := 0x7fff_ffff_ffff_ffff
  const MS: int := 1_000_000

  /** The furthest a due time may lie ahead and still shorten a wait. */
  const RANGE: int := (INT_MAX - 1) * MS

  // -------------------------------------------------------------------- Timers

  /** toMillisecondTimeoutDelay: rounded up; -1 when too far ahead. */
  function ToMillisecondTimeoutDelay(referenceTime: int, timeoutTime: int): int {
    if timeoutTime > referenceTime then
      var delay := timeoutTime - referenceTime;
      if delay > RANGE then -1 else (delay + 999_999) / MS
    else 0
  }

  // ----------------------------------------------------------------- the queue

  datatype Envelope = Envelope(uptime: int, handler: int, what: int)

  ghost predicate Sorted(q: seq<Envelope>) {
    forall i, j :: 0 <= i <= j < |q| ==> q[i].uptime <= q[j].uptime
  }

  /** The place of a new message: after every message due no later. */
  function Place(q: seq<Envelope>, uptime: int): (i: nat)
    ensures i <= |q|
  {
    if q == [] || uptime < q[0].uptime then 0 else 1 + Place(q[1..], uptime)
  }

  function Insert(q: seq<Envelope>, e: Envelope): seq<Envelope> {
    var i := Place(q, e.uptime);
    q[..i] + [e] + q[i..]
  }

  predicate Matches(e: Envelope, handler: int, what: Option<int>) {
    e.handler == handler && (what.None? || e.what == what.value)
  }

  /** The queue without the messages of one handler (and one `what`, if given). */
  function Without(q: seq<Envelope>, handler: int, what: Option<int>): seq<Envelope> {
    if q == [] then []
    else if Matches(q[0], handler, what) then Without(q[1..], handler, what)
    else [q[0]] + Without(q[1..], handler, what)
  }

  // ------------------------------------------------------------ the two threads

  /** Where the looper thread is in pollInner; `asked` is the caller's timeout. */
  datatype Poll =
    | Resting
    | Adjusting(timeout: int)
    | Entering(asked: int, timeout: int, readAt: int)
    | Waiting(asked: int, timeout: int, readAt: int, enteredAt: int)
    | Returned(woken: bool)
    | Locked(woken: bool)             // holds mLock, wake event not yet consumed
    | Done                            // holds mLock
    | Scanning                        // holds mLock
    | Handling(message: Envelope)     // handler running, mLock released

  /** A sending thread: idle, or between its insertion and its wake(). */
  datatype Sender = Idle | Waking

  datatype State = State(
    queue: seq<Envelope>,       // mMessageEnvelopes
    nextUptime: int,            // mNextMessageUptime
    sending: bool,              // mSendingMessage
    signalled: bool,            // the wake event fd is readable
    poll: Poll,
    senders: seq<Sender>,
    clock: int,
    sent: multiset<Envelope>,
    handled: multiset<Envelope>,
    removed: multiset<Envelope>)

  predicate HoldsLock(p: Poll) {
    p.Locked? || p.Done? || p.Scanning?
  }

  /** The timeout passed to epoll_wait. */
  function AdjustedTimeout(timeout: int, now: int, nextUptime: int): int {
    if timeout != 0 && nextUptime != LLONG_MAX then
      var messageTimeout := ToMillisecondTimeoutDelay(now, nextUptime);
      if messageTimeout >= 0 && (timeout < 0 || messageTimeout < timeout) then messageTimeout else timeout
    else timeout
  }

  /** What happens next: a step of the looper (with the caller's timeout, and
      whether epoll reports the wake event), a step of a sender, a removal, a
      bare wake(), or the passing of time. */
  datatype Event =
    | LooperStep(timeout: int, woken: bool)
    | Send(i: nat, e: Envelope)
    | Wake(i: nat)
    | Remove(handler: int, what: Option<int>)
    | WakeUp
    | Tick(ns: nat)

  predicate MayReturn(s: State, woken: bool)
    requires s.poll.Waiting?
  {
    woken ==> s.signalled
  }

  predicate Enabled(s: State, ev: Event) {
    match ev
    case LooperStep(_, woken) => s.poll.Waiting? ==> MayReturn(s, woken)
    case Send(i, e) => i < |s.senders| && s.senders[i] == Idle && !HoldsLock(s.poll)
    case Wake(i) => i < |s.senders| && s.senders[i] == Waking
    case Remove(_, _) => !HoldsLock(s.poll)
    case WakeUp => true
    case Tick(_) => true
  }

  function LooperNext(s: State, timeout: int, woken: bool): State {
    match s.poll
    case Resting => s.(poll := Adjusting(timeout))
    case Adjusting(asked) => s.(poll := Entering(asked, AdjustedTimeout(asked, s.clock, s.nextUptime), s.clock))
    case Entering(asked, t, readAt) => s.(poll := Waiting(asked, t, readAt, s.clock))
    case Waiting(_, _, _, _) => s.(poll := Returned(woken))
    case Returned(w) => s.(poll := Locked(w))
    case Locked(w) => s.(signalled := s.signalled && !w, poll := Done)
    case Done => s.(nextUptime := LLONG_MAX, poll := Scanning)
    case Scanning =>
      if s.queue == [] then s.(poll := Resting)
      else if s.queue[0].uptime <= s.clock then
        s.(queue := s.queue[1..], sending := true, poll := Handling(s.queue[0]))
      else s.(nextUptime := s.queue[0].uptime, poll := Resting)
    case Handling(e) => s.(sending := false, handled := s.handled + multiset{e}, poll := Scanning)
  }

  function Step(s: State, ev: Event): State
    requires Enabled(s, ev)
  {
    match ev
    case LooperStep(timeout, woken) => LooperNext(s, timeout, woken)
    case Send(i, e) =>
      s.(queue := Insert(s.queue, e),
         sent := s.sent + multiset{e},
         senders := s.senders[i := if !s.sending && Place(s.queue, e.uptime) == 0 then Waking else Idle])
    case Wake(i) => s.(signalled := true, senders := s.senders[i := Idle])
    case Remove(handler, what) =>
      var left := Without(s.queue, handler, what);
      s.(queue := left, removed := s.removed + (multiset(s.queue) - multiset(left)))
    case WakeUp => s.(signalled := true)
    case Tick(ns) => s.(clock := s.clock + ns)
  }

  predicate Init(s: State) {
    && s.queue == [] && s.nextUptime == LLONG_MAX && !s.sending && !s.signalled
    && s.poll == Resting && s.clock >= 0
    && (forall i :: 0 <= i < |s.senders| ==> s.senders[i] == Idle)
    && s.sent == multiset{} && s.handled == multiset{} && s.removed == multiset{}
  }

  ghost predicate Next(s: State, s': State) {
    exists ev :: Enabled(s, ev) && s' == Step(s, ev)
  }

  ghost predicate IsRun(run: seq<State>) {
    && |run| > 0 && Init(run[0])
    && forall k :: 0 <= k < |run| - 1 ==> Next(run[k], run[k + 1])
  }
}
