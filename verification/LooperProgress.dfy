/** The looper gets on: a poll goes through its phases, due messages are handed over,
    and whoever has to wake it can. */
module LooperProgress {
  import opened Common
  import opened Looper
  import opened LooperSafety

  /** How far pollInner has got. */
  function Phase(p: Poll): nat {
    match p
    case Resting => 0
    case Adjusting(_) => 1
    case Entering(_, _, _) => 2
    case Waiting(_, _, _, _) => 3
    case Returned(_) => 4
    case Locked(_) => 5
    case Done => 6
    case Scanning => 7
    case Handling(_) => 8
  }

  /** Any number of senders can start with an idle looper, at any time of the clock. */
  lemma Starts(n: nat, clock: nat)
    ensures exists s :: Init(s) && |s.senders| == n && s.clock == clock
  {
    assert Init(State([], LLONG_MAX, false, false, Resting, seq(n, _ => Idle), clock,
                      multiset{}, multiset{}, multiset{}));
  }

  /** Every step of the looper takes it to the next phase, with the timeout its caller
      gave and the answer of epoll_wait; the last two phases take turns until nothing
      is due, and then the next due time is noted: that of the head, or none. */
  lemma PollProceeds(run: seq<State>, k: nat, timeout: int, woken: bool)
    requires IsRun(run) && k < |run| && Enabled(run[k], LooperStep(timeout, woken))
    ensures var s, s' := run[k], LooperNext(run[k], timeout, woken); var p, p' := s.poll, s'.poll;
      && (Phase(p) < 7 ==> Phase(p') == Phase(p) + 1)
      && (p == Resting ==> p'.timeout == timeout)
      && (p.Adjusting? ==> p'.asked == p.timeout && p'.readAt == s.clock)
      && (p.Entering? ==> p'.asked == p.asked && p'.timeout == p.timeout && p'.enteredAt == s.clock)
      && (p.Waiting? ==> p'.woken == woken)
      && (p.Returned? ==> p'.woken == p.woken)
      && (p.Handling? ==> p' == Scanning)
      && (p == Scanning ==>
            if s.queue != [] && s.queue[0].uptime <= s.clock
            then p' == Handling(s.queue[0]) && |s'.queue| < |s.queue|
            else p' == Resting && s'.queue == s.queue
                 && s'.nextUptime == if s.queue == [] then LLONG_MAX else s.queue[0].uptime)
  {
    hide Next, HeadKnown, Conserved, AsAsked, TimeoutCovers;
    RunInv(run, k);
  }

  /** The wake event is consumed by the poll that was told of it, and by no other. */
  lemma WakeIsConsumed(s: State, timeout: int, woken: bool)
    ensures var s' := LooperNext(s, timeout, woken);
      && (s.poll == Locked(true) ==> !s'.signalled)
      && (s.poll != Locked(true) ==> s'.signalled == s.signalled)
  {
  }

  /** Sooner or later every message at the head is due and handed over. */
  lemma HeadComesDue(s: State, ns: nat)
    requires s.poll == Scanning && s.queue != [] && s.queue[0].uptime <= s.clock + ns
    ensures Enabled(s, Tick(ns))
    ensures LooperNext(Step(s, Tick(ns)), 0, false).poll == Handling(s.queue[0])
  {
  }

  // -------------------------------------------------------------------- the others

  /** Queue and lock: while the looper holds the lock no other thread changes the
      queue, and when it does not, an idle sender can. */
  lemma LockIsExclusive(s: State, ev: Event)
    requires Enabled(s, ev) && !ev.LooperStep?
    ensures Step(s, ev).poll == s.poll
    ensures Step(s, ev).queue != s.queue ==> s.poll.Resting? || Phase(s.poll) in {1, 2, 3, 4, 8}
  {
  }

  lemma MaySend(s: State, i: nat, e: Envelope)
    requires i < |s.senders| && s.senders[i] == Idle && (Phase(s.poll) < 5 || s.poll.Handling?)
    ensures Enabled(s, Send(i, e)) && Enabled(s, Remove(e.handler, Some(e.what)))
  {
  }

  /** A sender goes on to wake the looper exactly if its message is the new head and
      no handler is running, since then the looper looks at the queue again anyway. */
  lemma WakesForNewHead(run: seq<State>, k: nat, i: nat, e: Envelope)
    requires IsRun(run) && k < |run| && Enabled(run[k], Send(i, e))
    ensures var s, s' := run[k], Step(run[k], Send(i, e));
      && s'.senders[i] == (if !s.poll.Handling? && forall j :: 0 <= j < |s.queue| ==> e.uptime < s.queue[j].uptime
                           then Waking else Idle)
      && s'.sent == s.sent + multiset{e}
      && s'.signalled == s.signalled
  {
    hide Next, HeadKnown, Conserved, AsAsked, TimeoutCovers;
    RunInv(run, k);
    PlaceSplits(run[k].queue, e.uptime);
  }

  /** And it can, at any time. */
  lemma WakingWakes(s: State, i: nat)
    requires i < |s.senders| && s.senders[i] == Waking
    ensures Enabled(s, Wake(i))
    ensures Step(s, Wake(i)) == s.(signalled := true, senders := s.senders[i := Idle])
    ensures Step(s, WakeUp) == s.(signalled := true)
  {
  }

  /** A signalled looper does not stay blocked. */
  lemma SignalledReturns(s: State)
    requires s.poll.Waiting? && s.signalled
    ensures Enabled(s, LooperStep(0, true)) && LooperNext(s, 0, true).poll == Returned(true)
  {
  }

  /** And epoll does not report a wake event that is not there. */
  lemma OnlySignalledWakes(s: State, timeout: int)
    requires s.poll.Waiting? && !s.signalled
    ensures !Enabled(s, LooperStep(timeout, true)) && Enabled(s, LooperStep(timeout, false))
  {
  }
}
