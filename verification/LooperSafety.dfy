/** No wake-up is lost, and messages are handled in order, once, never early. */
module LooperSafety {
  import opened Common
  import opened Looper

  // -------------------------------------------------------------- the timeout

  /** The rounding is never early and less than a millisecond late; the result
      fits an int; -1 exactly when the time lies beyond the range. */
  lemma TimeoutDelayIsTight(referenceTime: int, timeoutTime: int)
    ensures var r := ToMillisecondTimeoutDelay(referenceTime, timeoutTime);
      && -1 <= r <= INT_MAX
      && (r == -1 <==> timeoutTime - referenceTime > RANGE)
      && (r >= 0 && timeoutTime > referenceTime ==> timeoutTime <= referenceTime + r * MS < timeoutTime + MS)
      && (timeoutTime <= referenceTime ==> r == 0)
      && RANGE == 2_147_483_646_000_000
  {
  }

  // -------------------------------------------------------------- the queue

  /** Insertion keeps the queue sorted and is first-in first-out among equals. */
  lemma {:induction false} PlaceSplits(q: seq<Envelope>, uptime: int)
    requires Sorted(q)
    ensures var i := Place(q, uptime);
      && (forall j :: 0 <= j < i ==> q[j].uptime <= uptime)
      && (forall j :: i <= j < |q| ==> uptime < q[j].uptime)
  {
    if q != [] && q[0].uptime <= uptime {
      PlaceSplits(q[1..], uptime);
      var i := Place(q, uptime);
      forall j | 0 <= j < |q|
        ensures if j < i then q[j].uptime <= uptime else uptime < q[j].uptime
      {
        if j > 0 { assert q[j] == q[1..][j - 1]; }
      }
    }
  }

  lemma InsertSorted(q: seq<Envelope>, e: Envelope)
    requires Sorted(q)
    ensures Sorted(Insert(q, e))
    ensures multiset(Insert(q, e)) == multiset(q) + multiset{e}
    ensures Insert(q, e)[0] == if Place(q, e.uptime) == 0 then e else q[0]
  {
    hide Place;
    PlaceSplits(q, e.uptime);
    var i := Place(q, e.uptime);
    assert q == q[..i] + q[i..];
  }

  /** Removal keeps exactly the other messages, each as often as it was there. */
  lemma {:induction false} WithoutKeeps(q: seq<Envelope>, handler: int, what: Option<int>)
    requires Sorted(q)
    ensures var r := Without(q, handler, what);
      && Sorted(r)
      && multiset(r) <= multiset(q)
      && (forall e :: multiset(r)[e] == if Matches(e, handler, what) then 0 else multiset(q)[e])
      && (r != [] ==> q[0].uptime <= r[0].uptime)
  {
    WithoutCounts(q, handler, what);
    hide Matches;
    if q != [] {
      WithoutKeeps(q[1..], handler, what);
      var r := Without(q[1..], handler, what);
      forall i | 0 <= i < |r| ensures q[0].uptime <= r[i].uptime {
        assert multiset(r)[r[i]] > 0;
        assert multiset(q[1..])[r[i]] > 0 && r[i] in q[1..];
      }
    }
  }

  lemma {:induction false} WithoutCounts(q: seq<Envelope>, handler: int, what: Option<int>)
    ensures var r := Without(q, handler, what);
      && multiset(r) <= multiset(q)
      && (forall e :: multiset(r)[e] == if Matches(e, handler, what) then 0 else multiset(q)[e])
  {
    hide Matches;
    if q != [] {
      WithoutCounts(q[1..], handler, what);
      assert q == [q[0]] + q[1..];
    }
  }

  /** What goes: all messages of the handler, or all of it with that `what`. */
  lemma RemovalIsExact(q: seq<Envelope>, handler: int, what: Option<int>, e: Envelope)
    ensures multiset(Without(q, handler, what))[e] ==
      if e.handler == handler && what in {None, Some(e.what)} then 0 else multiset(q)[e]
  {
    WithoutCounts(q, handler, what);
    hide Without;
  }

  /** `r` is what `q` has at the places `at`, in that order. */
  ghost predicate Picks(q: seq<Envelope>, at: seq<nat>, r: seq<Envelope>) {
    && |at| == |r|
    && (forall i :: 0 <= i < |at| ==> at[i] < |q| && r[i] == q[at[i]])
    && (forall i, j :: 0 <= i < j < |at| ==> at[i] < at[j])
  }

  /** The others stay in the order they had: `at` names their places, all of them. */
  lemma {:induction false} WithoutKeepsOrder(q: seq<Envelope>, handler: int, what: Option<int>)
    returns (at: seq<nat>)
    ensures Picks(q, at, Without(q, handler, what))
    ensures forall k :: 0 <= k < |q| ==> (k in at <==> !Matches(q[k], handler, what))
  {
    hide Matches, Picks;
    if q == [] {
      at := [];
      NothingPicked();
    } else {
      var rest := WithoutKeepsOrder(q[1..], handler, what);
      var later := PicksLater(q, rest, Without(q[1..], handler, what));
      at := if Matches(q[0], handler, what) then later else [0] + later;
      PicksHead(q, later, Without(q[1..], handler, what));
      forall k | 0 <= k < |q| ensures k in at <==> !Matches(q[k], handler, what) {
        if k > 0 { assert q[k] == q[1..][k - 1]; }
      }
    }
  }

  lemma NothingPicked()
    ensures Picks([], [], [])
  {
  }

  lemma PicksLater(q: seq<Envelope>, rest: seq<nat>, r: seq<Envelope>) returns (later: seq<nat>)
    requires q != [] && Picks(q[1..], rest, r)
    ensures Picks(q, later, r) && (forall k :: k in later <==> k > 0 && k - 1 in rest)
  {
    later := seq(|rest|, i requires 0 <= i < |rest| => rest[i] + 1);
    forall k | k > 0 && k - 1 in rest ensures k in later {
      var i :| 0 <= i < |rest| && rest[i] == k - 1;
      assert later[i] == k;
    }
  }

  lemma PicksHead(q: seq<Envelope>, later: seq<nat>, r: seq<Envelope>)
    requires q != [] && Picks(q, later, r) && 0 !in later
    ensures Picks(q, [0] + later, [q[0]] + r)
  {
  }

  // ------------------------------------------------------------- the invariant

  ghost predicate SomeoneWaking(s: State) {
    exists i :: 0 <= i < |s.senders| && s.senders[i] == Waking
  }

  /** Nothing new at the head of the queue, or a wake-up on its way. */
  ghost predicate HeadKnown(s: State) {
    s.queue == [] || s.nextUptime <= s.queue[0].uptime || s.signalled || SomeoneWaking(s)
  }

  /** The timeout ends by the next due time, rounded up, counted from the
      reading of the clock. */
  predicate TimeoutCovers(timeout: int, readAt: int, nextUptime: int) {
    || nextUptime == LLONG_MAX
    || nextUptime > readAt + RANGE
    || (timeout >= 0 && readAt + timeout * MS < Max(nextUptime, readAt) + MS)
  }

  /** The caller's timeout bounds the wait; it is shortened only for a message that
      is due within range and sooner, and then to end within the millisecond after
      that message is due. */
  predicate AsAsked(asked: int, timeout: int, readAt: int, nextUptime: int) {
    && (asked >= 0 ==> 0 <= timeout <= asked)
    && (nextUptime == LLONG_MAX || nextUptime > readAt + RANGE ==> timeout == asked)
    && (asked != timeout ==>
          && 0 <= timeout
          && nextUptime <= readAt + timeout * MS < Max(nextUptime, readAt) + MS
          && (asked > 0 ==> nextUptime <= readAt + (asked - 1) * MS))
  }

  ghost predicate Flow(s: State) {
    && Sorted(s.queue)
    && (s.sending <==> s.poll.Handling?)
    && (s.poll.Scanning? || s.poll.Handling? ==> s.nextUptime == LLONG_MAX)
    && (!s.poll.Done? && !s.poll.Scanning? && !s.poll.Handling? ==> HeadKnown(s))
    && (s.poll.Entering? ==>
          && TimeoutCovers(s.poll.timeout, s.poll.readAt, s.nextUptime)
          && AsAsked(s.poll.asked, s.poll.timeout, s.poll.readAt, s.nextUptime)
          && s.poll.readAt <= s.clock)
    && (s.poll.Waiting? ==>
          && TimeoutCovers(s.poll.timeout, s.poll.readAt, s.nextUptime)
          && AsAsked(s.poll.asked, s.poll.timeout, s.poll.readAt, s.nextUptime)
          && s.poll.readAt <= s.poll.enteredAt <= s.clock)
    && (s.poll.Handling? ==> s.poll.message.uptime <= s.clock)
  }

  /** The message a handler is working on. */
  function InHand(s: State): multiset<Envelope> {
    if s.poll.Handling? then multiset{s.poll.message} else multiset{}
  }

  predicate Conserved(s: State) {
    s.sent == multiset(s.queue) + InHand(s) + s.handled + s.removed
  }

  lemma TimeoutIsCovered(timeout: int, now: int, nextUptime: int)
    ensures TimeoutCovers(AdjustedTimeout(timeout, now, nextUptime), now, nextUptime)
    ensures AsAsked(timeout, AdjustedTimeout(timeout, now, nextUptime), now, nextUptime)
  {
    TimeoutDelayIsTight(now, nextUptime);
  }

  lemma LooperFlow(s: State, timeout: int, woken: bool)
    requires Flow(s) && (s.poll.Waiting? ==> MayReturn(s, woken))
    ensures Flow(LooperNext(s, timeout, woken))
  {
    if s.poll.Adjusting? {
      TimeoutIsCovered(s.poll.timeout, s.clock, s.nextUptime);
    }
  }

  lemma SendFlow(s: State, i: nat, e: Envelope)
    requires Flow(s) && Enabled(s, Send(i, e))
    ensures Flow(Step(s, Send(i, e)))
  {
    hide Insert, TimeoutCovers;
    InsertSorted(s.queue, e);
    var s' := Step(s, Send(i, e));
    if !s.sending && Place(s.queue, e.uptime) == 0 {
      assert s'.senders[i] == Waking;
    } else if SomeoneWaking(s) {
      var j :| 0 <= j < |s.senders| && s.senders[j] == Waking;
      assert s'.senders[j] == Waking;
    }
  }

  lemma RemoveFlow(s: State, handler: int, what: Option<int>)
    requires Flow(s) && Enabled(s, Remove(handler, what))
    ensures Flow(Step(s, Remove(handler, what)))
  {
    hide TimeoutCovers;
    WithoutKeeps(s.queue, handler, what);
  }

  lemma StepFlow(s: State, ev: Event)
    requires Flow(s) && Enabled(s, ev)
    ensures Flow(Step(s, ev))
  {
    match ev
    case LooperStep(timeout, woken) => LooperFlow(s, timeout, woken);
    case Send(i, e) => SendFlow(s, i, e);
    case Remove(handler, what) => RemoveFlow(s, handler, what);
    case Wake(_) =>
    case WakeUp =>
    case Tick(_) =>
  }

  lemma TakeConserved(all: multiset<Envelope>, q: multiset<Envelope>, e: multiset<Envelope>,
                      handled: multiset<Envelope>, removed: multiset<Envelope>)
    requires all == (e + q) + multiset{} + handled + removed
    ensures all == q + e + handled + removed
  {
  }

  lemma HandConserved(all: multiset<Envelope>, q: multiset<Envelope>, e: multiset<Envelope>,
                      handled: multiset<Envelope>, removed: multiset<Envelope>)
    requires all == q + e + handled + removed
    ensures all == q + multiset{} + (handled + e) + removed
  {
  }

  lemma LooperConserved(s: State, timeout: int, woken: bool)
    requires Conserved(s)
    ensures Conserved(LooperNext(s, timeout, woken))
  {
    if s.poll.Scanning? && s.queue != [] && s.queue[0].uptime <= s.clock {
      var e, rest := s.queue[0], s.queue[1..];
      assert s.queue == [e] + rest;
      assert multiset(s.queue) == multiset{e} + multiset(rest);
      TakeConserved(s.sent, multiset(rest), multiset{e}, s.handled, s.removed);
    } else if s.poll.Handling? {
      HandConserved(s.sent, multiset(s.queue), multiset{s.poll.message}, s.handled, s.removed);
    }
  }

  lemma RemoveConserved(all: multiset<Envelope>, q: multiset<Envelope>, left: multiset<Envelope>,
                        hand: multiset<Envelope>, handled: multiset<Envelope>, removed: multiset<Envelope>)
    requires all == q + hand + handled + removed && left <= q
    ensures all == left + hand + handled + (removed + (q - left))
  {
  }

  lemma SendConserved(all: multiset<Envelope>, q: multiset<Envelope>, e: multiset<Envelope>,
                      hand: multiset<Envelope>, handled: multiset<Envelope>, removed: multiset<Envelope>)
    requires all == q + hand + handled + removed
    ensures all + e == (q + e) + hand + handled + removed
  {
  }

  lemma StepConserved(s: State, ev: Event)
    requires Conserved(s) && Flow(s) && Enabled(s, ev)
    ensures Conserved(Step(s, ev))
  {
    hide TimeoutCovers, HeadKnown, Insert, Without, LooperNext;
    match ev
    case LooperStep(timeout, woken) => LooperConserved(s, timeout, woken);
    case Send(i, e) =>
      InsertSorted(s.queue, e);
      SendConserved(s.sent, multiset(s.queue), multiset{e}, InHand(s), s.handled, s.removed);
    case Remove(handler, what) =>
      WithoutKeeps(s.queue, handler, what);
      RemoveConserved(s.sent, multiset(s.queue), multiset(Without(s.queue, handler, what)),
                      InHand(s), s.handled, s.removed);
    case _ =>
  }

  ghost predicate Inv(s: State) {
    Flow(s) && Conserved(s)
  }

  lemma NextInv(s: State, s': State)
    requires Inv(s) && Next(s, s')
    ensures Inv(s')
  {
    hide Flow, Conserved, Step;
    var ev :| Enabled(s, ev) && s' == Step(s, ev);
    StepFlow(s, ev);
    StepConserved(s, ev);
  }

  lemma InitInv(s: State)
    requires Init(s)
    ensures Inv(s)
  {
  }

  lemma {:induction false} RunInv(run: seq<State>, k: nat)
    requires IsRun(run) && k < |run|
    ensures Inv(run[k])
  {
    hide Next, Inv;
    if k == 0 {
      InitInv(run[0]);
    } else {
      RunInv(run, k - 1);
      assert Next(run[k - 1], run[k - 1 + 1]);
      NextInv(run[k - 1], run[k]);
    }
  }

  // ---------------------------------------------------------------- the promises

  /** No wake-up is lost.  Whenever the looper is blocked in epoll_wait: the
      queue is empty; or its head lies out of range; or the wake event is
      signalled; or a sender is about to signal it; or the timeout ends no later
      than the head's due time rounded up to a millisecond, counted from the
      clock reading the timeout was computed from. */
  lemma NoLostWakeUp(run: seq<State>, k: nat)
    requires IsRun(run) && k < |run| && run[k].poll.Waiting?
    ensures var s := run[k]; var readAt := s.poll.readAt;
      || s.queue == []
      || s.queue[0].uptime > readAt + RANGE || s.queue[0].uptime >= LLONG_MAX
      || s.signalled
      || SomeoneWaking(s)
      || (s.poll.timeout >= 0 && readAt + s.poll.timeout * MS < Max(s.queue[0].uptime, readAt) + MS)
  {
    hide Next, Conserved;
    RunInv(run, k);
  }

  /** A sleep that is cut short by nothing but its own message timeout does not
      end before the message is due. */
  lemma NeverEarly(timeout: int, now: int, nextUptime: int)
    requires var t := AdjustedTimeout(timeout, now, nextUptime); t != timeout
    ensures now + AdjustedTimeout(timeout, now, nextUptime) * MS >= nextUptime
  {
    TimeoutDelayIsTight(now, nextUptime);
  }

  /** A looper blocked in epoll_wait waits no longer than its caller asked, and as
      long as that unless a message was known to be due within range and sooner. */
  lemma NeverLongerThanAsked(run: seq<State>, k: nat)
    requires IsRun(run) && k < |run| && run[k].poll.Waiting?
    ensures var s := run[k];
      && AsAsked(s.poll.asked, s.poll.timeout, s.poll.readAt, s.nextUptime)
      && s.poll.readAt <= s.poll.enteredAt <= s.clock
  {
    hide Next, Conserved, HeadKnown, AsAsked;
    RunInv(run, k);
  }

  /** Every message sent is queued, in a handler's hands, handled or removed,
      exactly once; handlers get it when due, and the queue stays sorted. */
  lemma MessagesAreConserved(run: seq<State>, k: nat)
    requires IsRun(run) && k < |run|
    ensures var s := run[k];
      && Sorted(s.queue)
      && s.sent == multiset(s.queue) + InHand(s) + s.handled + s.removed
      && (s.poll.Handling? ==> s.poll.message.uptime <= s.clock)
  {
    hide Next, HeadKnown;
    RunInv(run, k);
  }

  /** The message dispatched is the earliest due. */
  lemma DispatchesHead(run: seq<State>, k: nat, j: nat)
    requires IsRun(run) && k < |run| && run[k].poll.Scanning? && j < |run[k].queue|
    requires run[k].queue[0].uptime <= run[k].clock
    ensures var s' := LooperNext(run[k], 0, false);
      s'.poll == Handling(run[k].queue[0]) && run[k].queue[0].uptime <= run[k].queue[j].uptime
  {
    hide Next, HeadKnown, Conserved;
    RunInv(run, k);
  }
}
