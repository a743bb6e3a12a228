/** The Looper object's own operations, changing its queue in place. */
module LooperImpl {
  import opened Common
  import opened Looper
  import opened LooperSafety

  lemma {:induction false} PlaceCounts(q: seq<Envelope>, uptime: int, i: nat)
    requires i <= |q| && (forall j :: 0 <= j < i ==> q[j].uptime <= uptime)
    requires i < |q| ==> uptime < q[i].uptime
    ensures Place(q, uptime) == i
  {
    if i > 0 {
      assert forall j :: 0 <= j < i - 1 ==> q[1..][j] == q[j + 1];
      PlaceCounts(q[1..], uptime, i - 1);
    }
  }

  // ------------------------------------------------------- dispatching what is due

  /** One change of the queue that falls into the time a message is handled. */
  datatype Deed = Send(e: Envelope) | Remove(handler: int, what: Option<int>)

  datatype Drained = Drained(handled: seq<Envelope>, left: seq<Envelope>)

  function Deeds(during: seq<seq<Deed>>, turn: nat): seq<Deed> {
    if turn < |during| then during[turn] else []
  }

  function Apply(q: seq<Envelope>, deed: Deed): seq<Envelope> {
    match deed
    case Send(e) => Insert(q, e)
    case Remove(handler, what) => Without(q, handler, what)
  }

  /** The messages a change of the queue brings, and those it takes. */
  function Brings(deed: Deed): multiset<Envelope> {
    if deed.Send? then multiset{deed.e} else multiset{}
  }

  function Takes(q: seq<Envelope>, deed: Deed): multiset<Envelope> {
    if deed.Send? then multiset{} else multiset(q) - multiset(Apply(q, deed))
  }

  function After(q: seq<Envelope>, deeds: seq<Deed>): seq<Envelope>
    decreases |deeds|
  {
    if deeds == [] then q else After(Apply(q, deeds[0]), deeds[1..])
  }

  function Sent(deeds: seq<Deed>): multiset<Envelope> {
    if deeds == [] then multiset{} else Brings(deeds[0]) + Sent(deeds[1..])
  }

  function Gone(q: seq<Envelope>, deeds: seq<Deed>): multiset<Envelope>
    decreases |deeds|
  {
    if deeds == [] then multiset{} else Takes(q, deeds[0]) + Gone(Apply(q, deeds[0]), deeds[1..])
  }

  /** Turn after turn, the head is handed over if it is due by then. */
  function Drain(q: seq<Envelope>, clock: nat -> int, during: seq<seq<Deed>>, turn: nat): Drained
    decreases Max(0, |during| - turn), |q|
  {
    if q == [] || q[0].uptime > clock(turn) then Drained([], q)
    else
      var rest := Drain(After(q[1..], Deeds(during, turn)), clock, during, turn + 1);
      Drained([q[0]] + rest.handled, rest.left)
  }

  /** What was sent, and what was removed, while messages were handed over. */
  function SentDuring(during: seq<seq<Deed>>, turn: nat, turns: nat): multiset<Envelope>
    decreases turns
  {
    if turns == 0 then multiset{}
    else Sent(Deeds(during, turn)) + SentDuring(during, turn + 1, turns - 1)
  }

  function GoneDuring(q: seq<Envelope>, during: seq<seq<Deed>>, turn: nat, turns: nat): multiset<Envelope>
    decreases turns
  {
    if turns == 0 || q == [] then multiset{}
    else
      Gone(q[1..], Deeds(during, turn))
      + GoneDuring(After(q[1..], Deeds(during, turn)), during, turn + 1, turns - 1)
  }

  /** One step's balance, then another's. */
  lemma Balance(a: multiset<Envelope>, sent: multiset<Envelope>, gone: multiset<Envelope>, b: multiset<Envelope>,
                sentLater: multiset<Envelope>, goneLater: multiset<Envelope>, c: multiset<Envelope>)
    requires b + gone == a + sent
    requires c + goneLater == b + sentLater
    ensures c + (gone + goneLater) == a + (sent + sentLater)
  {
    forall e ensures c[e] + gone[e] + goneLater[e] == a[e] + sent[e] + sentLater[e] {
      assert (b + gone)[e] == (a + sent)[e] && (c + goneLater)[e] == (b + sentLater)[e];
    }
    SameMultiset(c + (gone + goneLater), a + (sent + sentLater));
  }

  lemma DeedConserves(q: seq<Envelope>, deed: Deed)
    requires Sorted(q)
    ensures Sorted(Apply(q, deed))
    ensures multiset(Apply(q, deed)) + Takes(q, deed) == multiset(q) + Brings(deed)
  {
    hide Insert, Without, Sorted;
    match deed
    case Send(e) =>
      InsertSorted(q, e);
    case Remove(handler, what) =>
      WithoutKeeps(q, handler, what);
  }

  lemma {:induction false} AfterConserves(q: seq<Envelope>, deeds: seq<Deed>)
    requires Sorted(q)
    ensures Sorted(After(q, deeds))
    ensures multiset(After(q, deeds)) + Gone(q, deeds) == multiset(q) + Sent(deeds)
    decreases |deeds|
  {
    hide Apply, Brings, Takes, Sorted;
    if deeds != [] {
      var b := Apply(q, deeds[0]);
      DeedConserves(q, deeds[0]);
      AfterConserves(b, deeds[1..]);
      Balance(multiset(q), Brings(deeds[0]), Takes(q, deeds[0]), multiset(b),
              Sent(deeds[1..]), Gone(b, deeds[1..]), multiset(After(b, deeds[1..])));
    }
  }

  /** The queue after its head was handed over and handled. */
  function Behind(q: seq<Envelope>, deeds: seq<Deed>): (b: seq<Envelope>)
    requires q != [] && Sorted(q)
    ensures Sorted(b) && (deeds == [] ==> b == q[1..])
  {
    AfterConserves(q[1..], deeds);
    After(q[1..], deeds)
  }

  lemma DrainTakesHead(q: seq<Envelope>, clock: nat -> int, during: seq<seq<Deed>>, turn: nat)
    requires q != [] && Sorted(q) && q[0].uptime <= clock(turn)
    ensures var rest := Drain(Behind(q, Deeds(during, turn)), clock, during, turn + 1);
      Drain(q, clock, during, turn) == Drained([q[0]] + rest.handled, rest.left)
  {
  }

  lemma {:induction false} DrainIsDue(q: seq<Envelope>, clock: nat -> int, during: seq<seq<Deed>>, turn: nat)
    requires Sorted(q)
    ensures var d := Drain(q, clock, during, turn);
      && (forall i :: 0 <= i < |d.handled| ==> d.handled[i].uptime <= clock(turn + i))
      && Sorted(d.left)
      && (forall e :: e in d.left ==> clock(turn + |d.handled|) < e.uptime)
    decreases Max(0, |during| - turn), |q|
  {
    hide After;
    if q != [] && q[0].uptime <= clock(turn) {
      var b := Behind(q, Deeds(during, turn));
      DrainIsDue(b, clock, during, turn + 1);
      var d, r := Drain(q, clock, during, turn), Drain(b, clock, during, turn + 1);
      forall i | 0 <= i < |d.handled| ensures d.handled[i].uptime <= clock(turn + i) {
        if i > 0 { assert d.handled[i] == r.handled[i - 1]; }
      }
    }
  }

  lemma DrainStops(q: seq<Envelope>, clock: nat -> int, during: seq<seq<Deed>>, turn: nat)
    requires q == [] || clock(turn) < q[0].uptime
    ensures Drain(q, clock, during, turn) == Drained([], q)
  {
  }

  lemma HeadBalance(q: seq<Envelope>, r: Drained, sent: multiset<Envelope>, gone: multiset<Envelope>,
                    b: seq<Envelope>, sentLater: multiset<Envelope>, goneLater: multiset<Envelope>)
    requires q != []
    requires multiset(b) + gone == multiset(q[1..]) + sent
    requires multiset(r.handled) + multiset(r.left) + goneLater == multiset(b) + sentLater
    ensures multiset([q[0]] + r.handled) + multiset(r.left) + (gone + goneLater)
            == multiset(q) + (sent + sentLater)
  {
    var left := multiset(r.handled) + multiset(r.left);
    Balance(multiset(q[1..]), sent, gone, multiset(b), sentLater, goneLater, left);
    assert multiset(q) == multiset{q[0]} + multiset(q[1..]) by { assert q == [q[0]] + q[1..]; }
    SameMultiset(multiset([q[0]] + r.handled) + multiset(r.left) + (gone + goneLater),
                 multiset{q[0]} + (left + (gone + goneLater)));
    SameMultiset(multiset(q) + (sent + sentLater), multiset{q[0]} + (multiset(q[1..]) + (sent + sentLater)));
  }

  lemma {:induction false} DrainConserves(q: seq<Envelope>, clock: nat -> int, during: seq<seq<Deed>>, turn: nat)
    requires Sorted(q)
    ensures var d := Drain(q, clock, during, turn);
      multiset(d.handled) + multiset(d.left) + GoneDuring(q, during, turn, |d.handled|)
      == multiset(q) + SentDuring(during, turn, |d.handled|)
    decreases Max(0, |during| - turn), |q|
  {
    hide Drain, After, Gone, Sent;
    if q != [] && q[0].uptime <= clock(turn) {
      var deeds := Deeds(during, turn);
      AfterConserves(q[1..], deeds);
      var b := Behind(q, deeds);
      DrainConserves(b, clock, during, turn + 1);
      DrainTakesHead(q, clock, during, turn);
      var r := Drain(b, clock, during, turn + 1);
      HeadBalance(q, r, Sent(deeds), Gone(q[1..], deeds), b,
                  SentDuring(during, turn + 1, |r.handled|), GoneDuring(b, during, turn + 1, |r.handled|));
    } else {
      DrainStops(q, clock, during, turn);
    }
  }

  /** Every message handed over was due at the clock's reading for its turn, the
      messages left are not due at the last reading, and no message is lost or
      doubled. */
  lemma DrainIsExact(q: seq<Envelope>, clock: nat -> int, during: seq<seq<Deed>>, turn: nat)
    requires Sorted(q)
    ensures var d := Drain(q, clock, during, turn);
      && (forall i :: 0 <= i < |d.handled| ==> d.handled[i].uptime <= clock(turn + i))
      && Sorted(d.left)
      && (forall e :: e in d.left ==> clock(turn + |d.handled|) < e.uptime)
      && multiset(d.handled) + multiset(d.left) + GoneDuring(q, during, turn, |d.handled|)
         == multiset(q) + SentDuring(during, turn, |d.handled|)
  {
    hide Drain, GoneDuring, SentDuring;
    DrainIsDue(q, clock, during, turn);
    DrainConserves(q, clock, during, turn);
  }

  /** When nothing else touches the queue, the due messages leave in its order. */
  lemma {:induction false} DrainSplits(q: seq<Envelope>, clock: nat -> int, turn: nat)
    requires Sorted(q)
    ensures var d := Drain(q, clock, [], turn); d.handled + d.left == q
    decreases |q|
  {
    hide Drain, Behind, After;
    if q != [] && q[0].uptime <= clock(turn) {
      DrainTakesHead(q, clock, [], turn);
      DrainSplits(q[1..], clock, turn + 1);
      assert q == [q[0]] + q[1..];
    } else {
      DrainStops(q, clock, [], turn);
    }
  }

  class MessageLooper {
    var mMessageEnvelopes: seq<Envelope>
    var mNextMessageUptime: int
    var mSendingMessage: bool
    var mWakeSignalled: bool

    constructor ()
      ensures mMessageEnvelopes == [] && mNextMessageUptime == LLONG_MAX
      ensures !mSendingMessage && !mWakeSignalled
    {
      mMessageEnvelopes, mNextMessageUptime := [], LLONG_MAX;
      mSendingMessage, mWakeSignalled := false, false;
    }

    /** sendMessageAtTime: a linear search for the place, then a wake-up only for
        a new head, and not while a handler is running. */
    method SendMessageAtTime(e: Envelope)
      requires Sorted(mMessageEnvelopes)
      modifies this`mMessageEnvelopes, this`mWakeSignalled
      ensures mMessageEnvelopes == Insert(old(mMessageEnvelopes), e) && Sorted(mMessageEnvelopes)
      ensures mWakeSignalled <==>
        old(mWakeSignalled) || (!mSendingMessage && mMessageEnvelopes[0] == e
                                && Place(old(mMessageEnvelopes), e.uptime) == 0)
    {
      var i := 0;
      while i < |mMessageEnvelopes| && e.uptime >= mMessageEnvelopes[i].uptime
        invariant i <= |mMessageEnvelopes|
        invariant forall j :: 0 <= j < i ==> mMessageEnvelopes[j].uptime <= e.uptime
      {
        i := i + 1;
      }
      PlaceCounts(mMessageEnvelopes, e.uptime, i);
      InsertSorted(mMessageEnvelopes, e);
      mMessageEnvelopes := mMessageEnvelopes[..i] + [e] + mMessageEnvelopes[i..];
      if mSendingMessage { return; }
      if i == 0 { mWakeSignalled := true; }
    }

    /** removeMessages, from the back of the queue to the front. */
    method RemoveMessages(handler: int, what: Option<int>)
      modifies this`mMessageEnvelopes
      ensures mMessageEnvelopes == Without(old(mMessageEnvelopes), handler, what)
    {
      ghost var before := mMessageEnvelopes;
      var i := |mMessageEnvelopes|;
      assert before[i..] == [];
      while i != 0
        invariant i <= |before|
        invariant mMessageEnvelopes == before[..i] + Without(before[i..], handler, what)
      {
        i := i - 1;
        assert before[i..] == [before[i]] + before[i + 1..];
        assert before[..i + 1] == before[..i] + [before[i]];
        if Matches(mMessageEnvelopes[i], handler, what) {
          mMessageEnvelopes := mMessageEnvelopes[..i] + mMessageEnvelopes[i + 1..];
        }
      }
      assert before[0..] == before;
    }

    /** The head of pollInner: the timeout for epoll_wait. */
    method PollTimeout(timeoutMillis: int, now: int) returns (timeout: int)
      ensures timeout == AdjustedTimeout(timeoutMillis, now, mNextMessageUptime)
      ensures TimeoutCovers(timeout, now, mNextMessageUptime)
      ensures AsAsked(timeoutMillis, timeout, now, mNextMessageUptime)
    {
      TimeoutIsCovered(timeoutMillis, now, mNextMessageUptime);
      timeout := timeoutMillis;
      if timeoutMillis != 0 && mNextMessageUptime != LLONG_MAX {
        var messageTimeout := ToMillisecondTimeoutDelay(now, mNextMessageUptime);
        if messageTimeout >= 0 && (timeoutMillis < 0 || messageTimeout < timeoutMillis) {
          timeout := messageTimeout;
        }
      }
    }

    method DoDeed(deed: Deed)
      requires Sorted(mMessageEnvelopes) && mSendingMessage
      modifies this`mMessageEnvelopes, this`mWakeSignalled
      ensures mMessageEnvelopes == Apply(old(mMessageEnvelopes), deed) && Sorted(mMessageEnvelopes)
      ensures mWakeSignalled == old(mWakeSignalled)
    {
      hide Sorted, Insert, Without;
      match deed {
        case Send(e) =>
          SendMessageAtTime(e);
        case Remove(handler, what) =>
          WithoutKeeps(mMessageEnvelopes, handler, what);
          RemoveMessages(handler, what);
      }
    }

    /** What handlers and other threads do to the queue while one message is handled. */
    method DoDeeds(deeds: seq<Deed>)
      requires Sorted(mMessageEnvelopes) && mSendingMessage
      modifies this`mMessageEnvelopes, this`mWakeSignalled
      ensures mMessageEnvelopes == After(old(mMessageEnvelopes), deeds) && Sorted(mMessageEnvelopes)
      ensures mWakeSignalled == old(mWakeSignalled)
    {
      hide Sorted, Apply;
      ghost var before := mMessageEnvelopes;
      var i := 0;
      assert deeds[0..] == deeds;
      while i < |deeds|
        invariant i <= |deeds| && Sorted(mMessageEnvelopes)
        invariant After(mMessageEnvelopes, deeds[i..]) == After(before, deeds)
        invariant mWakeSignalled == old(mWakeSignalled)
        decreases |deeds| - i
      {
        assert deeds[i..][1..] == deeds[i + 1..];
        DoDeed(deeds[i]);
        i := i + 1;
      }
    }

    /** Handing over the head: the lock is released while it is handled. */
    method HandleHead(deeds: seq<Deed>) returns (messageEnvelope: Envelope)
      requires Sorted(mMessageEnvelopes) && mMessageEnvelopes != [] && !mSendingMessage
      modifies this`mMessageEnvelopes, this`mSendingMessage, this`mWakeSignalled
      ensures messageEnvelope == old(mMessageEnvelopes)[0]
      ensures mMessageEnvelopes == Behind(old(mMessageEnvelopes), deeds)
      ensures !mSendingMessage && mWakeSignalled == old(mWakeSignalled)
    {
      messageEnvelope := mMessageEnvelopes[0];
      mMessageEnvelopes := mMessageEnvelopes[1..];
      mSendingMessage := true;
      DoDeeds(deeds);
      mSendingMessage := false;
    }

    /** The tail of pollInner: the clock is read anew before every message, and
        `during` is done to the queue while each one is handled.  No send among
        it wakes the poll, and the next due time is the new head's. */
    method DispatchDue(clock: nat -> int, during: seq<seq<Deed>>) returns (handled: seq<Envelope>)
      requires Sorted(mMessageEnvelopes) && !mSendingMessage
      modifies this
      ensures Drained(handled, mMessageEnvelopes) == Drain(old(mMessageEnvelopes), clock, during, 0)
      ensures Sorted(mMessageEnvelopes) && !mSendingMessage && mWakeSignalled == old(mWakeSignalled)
      ensures mNextMessageUptime == if mMessageEnvelopes == [] then LLONG_MAX else mMessageEnvelopes[0].uptime
    {
      hide Drain, Behind, Sorted;
      mNextMessageUptime := LLONG_MAX;
      handled := [];
      ghost var all := Drain(mMessageEnvelopes, clock, during, 0);
      ghost var rest := all;
      while |mMessageEnvelopes| != 0
        invariant Sorted(mMessageEnvelopes) && !mSendingMessage && mWakeSignalled == old(mWakeSignalled)
        invariant mNextMessageUptime == LLONG_MAX
        invariant rest == Drain(mMessageEnvelopes, clock, during, |handled|)
        invariant all == Drained(handled + rest.handled, rest.left)
        decreases Max(0, |during| - |handled|), |mMessageEnvelopes|
      {
        var now := clock(|handled|);
        if mMessageEnvelopes[0].uptime <= now {
          DrainTakesHead(mMessageEnvelopes, clock, during, |handled|);
          var head := HandleHead(Deeds(during, |handled|));
          handled := handled + [head];
          rest := Drain(mMessageEnvelopes, clock, during, |handled|);
        } else {
          mNextMessageUptime := mMessageEnvelopes[0].uptime;
          break;
        }
      }
      DrainStops(mMessageEnvelopes, clock, during, |handled|);
    }
  }
}
