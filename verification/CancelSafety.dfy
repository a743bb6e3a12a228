/** No cancel is lost. */
module CancelSafety {
  import opened CancelHandshake

  // ------------------------------------------------------------- the invariant

  /** The request id a worker has drawn, or 0. */
  function IdOf(w: Worker): int {
    match w
    case WPublish(id) => id
    case WCheck(id) => id
    case WCall(id) => id
    case FCheck(id, _) => id
    case FRead(id, _) => id
    case FEnd(id, _, _) => id
    case WReturn(id, _) => id
    case _ => 0
  }

  /** fetchToFd was called. */
  predicate Fetched(w: Worker) {
    || InFetch(w) || w.WReturn?
    || (w.WMessage? && w.fetched) || (w.WState? && w.fetched) || (w.WDone? && w.fetched)
  }

  /** The id is drawn but beginRequest has not run. */
  predicate Unclaimed(w: Worker) {
    w.WPublish? || w.WCheck? || w.WCall?
  }

  predicate TaskOk(k: Task, nextId: int) {
    && 0 <= IdOf(k.worker) < nextId
    && -1 <= k.httpRequestId < nextId && k.httpRequestId != 0
    && (Unclaimed(k.worker) || InFetch(k.worker) || k.worker.WReturn? ==> IdOf(k.worker) > 0)
    && (k.worker.WStart? || k.worker.WNewId? || k.worker.WPublish? ==> k.httpRequestId == -1)
    && (IdOf(k.worker) > 0 && !k.worker.WPublish? ==> k.httpRequestId == IdOf(k.worker))
    && (k.httpRequestId == -1 ==> !Fetched(k.worker))
    && (k.state.Terminal? <==> k.worker.WDone?)
    && (k.worker.WState? || k.worker.WDone? ==> k.explained)
  }

  ghost predicate Distinct(tasks: seq<Task>) {
    forall t, u :: 0 <= t < |tasks| && 0 <= u < |tasks| && t != u && IdOf(tasks[t].worker) > 0 ==>
      IdOf(tasks[t].worker) != IdOf(tasks[u].worker)
  }

  ghost predicate Ids(s: State) {
    && s.nextId >= 1
    && (forall t :: 0 <= t < |s.tasks| ==> TaskOk(s.tasks[t], s.nextId))
    && Distinct(s.tasks)
  }

  /** Task `t` is transferring under `id`. */
  predicate Transfers(tasks: seq<Task>, t: int, id: int) {
    0 <= t < |tasks| && InFetch(tasks[t].worker) && IdOf(tasks[t].worker) == id
  }

  /** A transfer under way has its running entry; every running entry belongs to
      one; an entry that is not running is a cancelled one. */
  ghost predicate Entries(s: State) {
    && (forall t, id :: Transfers(s.tasks, t, id) ==> id in s.requests && s.requests[id].running)
    && (forall id :: id in s.requests && s.requests[id].running ==> exists t :: Transfers(s.tasks, t, id))
    && (forall id :: id in s.requests && !s.requests[id].running ==>
          s.requests[id].canceled && id in s.served && s.requests[id].created == s.served[id])
  }

  /** The cancel of `id` was handled and shows, or was dropped as stale. */
  predicate Shows(s: State, id: int) {
    id in s.served ==> FlagSeen(s.requests, id) || id in s.purged
  }

  predicate ServedTask(s: State, k: Task) {
    && (Unclaimed(k.worker) || InFetch(k.worker) ==> Shows(s, IdOf(k.worker)))
    && (k.worker.FCheck? || k.worker.FRead? ==>
          k.worker.id in s.purged && k.worker.id in s.served ==>
            k.worker.claimed - s.served[k.worker.id] > STALE_REQUEST_MS)
  }

  ghost predicate Served(s: State) {
    && (forall id :: id >= s.nextId ==> Shows(s, id))
    && (forall id :: id in s.purged ==> id in s.served && s.clock - s.served[id] > STALE_REQUEST_MS)
    && (forall t :: 0 <= t < |s.tasks| ==> ServedTask(s, s.tasks[t]))
  }

  /** A dropped entry is gone until its id is cancelled again or its transfer begins. */
  ghost predicate Dropped(s: State) {
    forall id :: id in s.purged && id in s.requests ==> s.requests[id].running
  }

  predicate ClientOk(s: State, c: Client) {
    && c.task < |s.tasks|
    && (!c.CFind? && !c.CFlag? && !c.CTooLate? ==> s.tasks[c.task].canceled)
    && (c.CSend? || c.CSent? ==> c.id > 0 && c.id == s.tasks[c.task].httpRequestId)
    && (c.CSent? ==> c.id in s.inbox || c.id in s.served)
    && (c.CMissed? ==> NeverFetches(s.tasks[c.task]))
  }

  /** Cancelled, and not past the worker's own check of the flag. */
  predicate NeverFetches(k: Task) {
    k.canceled && !Fetched(k.worker) && !k.worker.WCall?
  }

  ghost predicate Clients(s: State) {
    forall c :: 0 <= c < |s.clients| ==> ClientOk(s, s.clients[c])
  }

  ghost predicate Inv(s: State) {
    Ids(s) && Entries(s) && Served(s) && Clients(s) && Dropped(s)
  }

  lemma InitInv(s: State)
    requires Init(s)
    ensures Inv(s)
  {
  }

  // ------------------------------------------------------------ a worker's step

  /** What a step does to the record of its own task. */
  lemma ActTask(k: Task, requests: map<int, Request>, nextId: int, now: int, ch: Choice)
    requires TaskOk(k, nextId) && nextId >= 1
    ensures var o := Act(k, requests, nextId, now, ch);
      && TaskOk(o.task, o.nextId)
      && o.task.canceled == k.canceled
      && (k.httpRequestId > 0 ==> o.task.httpRequestId == k.httpRequestId)
      && (NeverFetches(k) ==> NeverFetches(o.task))
      && nextId <= o.nextId <= nextId + 1
      && (o.nextId > nextId ==> o.requests == requests && o.task.worker == WPublish(nextId))
      && (o.nextId == nextId ==> IdOf(o.task.worker) == 0 || IdOf(o.task.worker) == IdOf(k.worker))
  {
    ActIds(k, requests, nextId, now, ch);
    ActOk(k, requests, nextId, now, ch);
    hide Act, TaskOk, NeverFetches, IdOf;
  }

  /** The record stays in order, and a cancel not too late keeps fetchToFd away. */
  predicate Advances(k: Task, k': Task, nextId': int) {
    && TaskOk(k', nextId')
    && k'.canceled == k.canceled
    && (k.httpRequestId > 0 ==> k'.httpRequestId == k.httpRequestId)
    && (NeverFetches(k) ==> NeverFetches(k'))
  }

  lemma ActOk(k: Task, requests: map<int, Request>, nextId: int, now: int, ch: Choice)
    requires TaskOk(k, nextId) && nextId >= 1
    ensures var o := Act(k, requests, nextId, now, ch); Advances(k, o.task, o.nextId)
  {
    if Preparing(k.worker) {
      PrepareOk(k, requests, nextId, now, ch);
    } else if InFetch(k.worker) {
      TransferOk(k, requests, nextId, ch);
    } else {
      FinishOk(k, nextId, ch);
    }
    hide Prepare, Transfer, Finish, Advances;
  }

  lemma PrepareOk(k: Task, requests: map<int, Request>, nextId: int, now: int, ch: Choice)
    requires TaskOk(k, nextId) && nextId >= 1 && Preparing(k.worker)
    ensures var o := Prepare(k, requests, nextId, now, ch); Advances(k, o.task, o.nextId)
  {
    hide BeginRequest;
  }

  lemma TransferOk(k: Task, requests: map<int, Request>, nextId: int, ch: Choice)
    requires TaskOk(k, nextId) && InFetch(k.worker)
    ensures var o := Transfer(k, requests, nextId, ch); Advances(k, o.task, o.nextId)
  {
    hide EndRequest, FlagSeen;
  }

  lemma FinishOk(k: Task, nextId: int, ch: Choice)
    requires TaskOk(k, nextId) && !Preparing(k.worker) && !InFetch(k.worker)
    ensures Advances(k, Finish(k, ch), nextId)
  {
  }

  lemma ActIds(k: Task, requests: map<int, Request>, nextId: int, now: int, ch: Choice)
    ensures var o := Act(k, requests, nextId, now, ch);
      && nextId <= o.nextId <= nextId + 1
      && (o.nextId > nextId ==> o.requests == requests && o.task.worker == WPublish(nextId))
      && (o.nextId == nextId ==> IdOf(o.task.worker) == 0 || IdOf(o.task.worker) == IdOf(k.worker))
  {
    hide BeginRequest, EndRequest;
  }

  /** What it does to the request map. */
  lemma ActRequests(k: Task, requests: map<int, Request>, nextId: int, now: int, ch: Choice)
    ensures var o := Act(k, requests, nextId, now, ch);
      if k.worker.WCall? && !ch.fail && !ch.lost then
        o.requests == BeginRequest(requests, k.worker.id, now) && o.task.worker == FCheck(k.worker.id, now)
      else if k.worker.FEnd? then
        o.requests == EndRequest(requests, k.worker.id) && o.task.worker.WReturn?
      else
        && o.requests == requests
        && (InFetch(o.task.worker) <==> InFetch(k.worker))
        && (InFetch(k.worker) ==> IdOf(o.task.worker) == IdOf(k.worker))
        && (o.task.worker.FCheck? || o.task.worker.FRead? ==>
              (k.worker.FCheck? || k.worker.FRead?) && o.task.worker.claimed == k.worker.claimed)
        && (Unclaimed(o.task.worker) ==> Unclaimed(k.worker) || o.nextId > nextId)
  {
  }

  lemma WorkerIds(s: State, t: nat, ch: Choice)
    requires Inv(s) && t < |s.tasks|
    ensures Ids(WorkerStep(s, t, ch))
  {
    hide Act;
    ActTask(s.tasks[t], s.requests, s.nextId, s.clock, ch);
  }

  lemma OneTransfer(s: State, u: nat, t: nat)
    requires Ids(s) && u < |s.tasks| && t < |s.tasks| && u != t && InFetch(s.tasks[u].worker)
    ensures IdOf(s.tasks[u].worker) != IdOf(s.tasks[t].worker)
  {
    assert TaskOk(s.tasks[u], s.nextId);
  }

  lemma WorkerEntries(s: State, t: nat, ch: Choice)
    requires Inv(s) && t < |s.tasks|
    ensures Entries(WorkerStep(s, t, ch))
  {
    hide Act, TaskOk, Served, Clients;
    var k, s' := s.tasks[t], WorkerStep(s, t, ch);
    var k' := s'.tasks[t];
    assert TaskOk(k, s.nextId);
    ActTask(k, s.requests, s.nextId, s.clock, ch);
    ActRequests(k, s.requests, s.nextId, s.clock, ch);
    forall u, id | Transfers(s'.tasks, u, id)
      ensures id in s'.requests && s'.requests[id].running
    {
      if u != t {
        assert Transfers(s.tasks, u, id);
        OneTransfer(s, u, t);
      } else {
        assert InFetch(k.worker) ==> Transfers(s.tasks, t, id);
      }
    }
    forall id | id in s'.requests && s'.requests[id].running
      ensures exists u :: Transfers(s'.tasks, u, id)
    {
      if InFetch(k'.worker) && IdOf(k'.worker) == id {
        assert Transfers(s'.tasks, t, id);
      } else {
        var u :| Transfers(s.tasks, u, id);
        assert Transfers(s'.tasks, u, id);
      }
    }
  }

  /** A worker's step hides no handled cancel. */
  lemma WorkerShows(s: State, t: nat, ch: Choice, id: int)
    requires t < |s.tasks| && Shows(s, id)
    requires s.tasks[t].worker.FEnd? ==> s.tasks[t].worker.id != id
    ensures Shows(WorkerStep(s, t, ch), id)
  {
    hide Act;
    ActRequests(s.tasks[t], s.requests, s.nextId, s.clock, ch);
  }

  lemma WorkerServed(s: State, t: nat, ch: Choice)
    requires Inv(s) && t < |s.tasks|
    ensures Served(WorkerStep(s, t, ch))
  {
    hide Act, Entries, Clients, Shows;
    var k, s' := s.tasks[t], WorkerStep(s, t, ch);
    ActTask(k, s.requests, s.nextId, s.clock, ch);
    ActRequests(k, s.requests, s.nextId, s.clock, ch);
    forall id | id >= s'.nextId
      ensures Shows(s', id)
    {
      WorkerShows(s, t, ch, id);
    }
    forall u | 0 <= u < |s'.tasks|
      ensures ServedTask(s', s'.tasks[u])
    {
      var w := s'.tasks[u].worker;
      assert ServedTask(s, s.tasks[u]);
      if Unclaimed(w) || InFetch(w) {
        assert Shows(s, IdOf(w));
        WorkerShows(s, t, ch, IdOf(w));
      }
    }
  }

  lemma WorkerClients(s: State, t: nat, ch: Choice)
    requires Inv(s) && t < |s.tasks|
    ensures Clients(WorkerStep(s, t, ch))
  {
    hide Act;
    ActTask(s.tasks[t], s.requests, s.nextId, s.clock, ch);
  }

  lemma WorkerDropped(s: State, t: nat, ch: Choice)
    requires Dropped(s) && t < |s.tasks|
    ensures Dropped(WorkerStep(s, t, ch))
  {
    hide Act;
    ActRequests(s.tasks[t], s.requests, s.nextId, s.clock, ch);
  }

  // --------------------------------------------------- clients and the service

  /** Setting the flag of a task disturbs nothing. */
  lemma FlagInv(s: State, t: nat)
    requires Inv(s) && t < |s.tasks|
    ensures Inv(s.(tasks := s.tasks[t := s.tasks[t].(canceled := true)]))
  {
    var s' := s.(tasks := s.tasks[t := s.tasks[t].(canceled := true)]);
    assert forall u, id :: Transfers(s'.tasks, u, id) <==> Transfers(s.tasks, u, id);
    assert forall id :: Shows(s, id) ==> Shows(s', id);
    forall u | 0 <= u < |s'.tasks|
      ensures ServedTask(s', s'.tasks[u]) && TaskOk(s'.tasks[u], s'.nextId)
    {
      assert ServedTask(s, s.tasks[u]) && TaskOk(s.tasks[u], s.nextId);
    }
  }

  /** So does moving a message or a client on, or passing time. */
  lemma QuietInv(s: State, s': State)
    requires Inv(s) && s' == s.(inbox := s'.inbox, clients := s'.clients, clock := s'.clock)
    requires s'.clock >= s.clock && Clients(s')
    ensures Inv(s')
  {
    assert forall id :: Shows(s, id) ==> Shows(s', id);
    forall u | 0 <= u < |s'.tasks|
      ensures ServedTask(s', s'.tasks[u])
    {
      assert ServedTask(s, s.tasks[u]);
    }
  }

  lemma ClientInv(s: State, c: nat, ch: Choice)
    requires Inv(s) && c < |s.clients|
    ensures Inv(ClientStep(s, c, ch))
  {
    var s' := ClientStep(s, c, ch);
    var t := s.clients[c].task;
    assert ClientOk(s, s.clients[c]);
    if s.clients[c].CFlag? {
      FlagInv(s, t);
      QuietInv(s.(tasks := s.tasks[t := s.tasks[t].(canceled := true)]), s');
    } else {
      ClientMoves(s, c, ch);
      QuietInv(s, s');
    }
  }

  lemma ClientMoves(s: State, c: nat, ch: Choice)
    requires Ids(s) && Clients(s) && c < |s.clients| && !s.clients[c].CFlag? && s.clients[c].task < |s.tasks|
    ensures Clients(ClientStep(s, c, ch))
  {
    hide Transfers, Distinct;
    assert ClientOk(s, s.clients[c]) && TaskOk(s.tasks[s.clients[c].task], s.nextId);
  }

  lemma DeliverShows(s: State, id: int)
    requires |s.inbox| > 0 && (s.inbox[0] == id || Shows(s, id))
    ensures Shows(Deliver(s), id)
  {
  }

  lemma DeliverInv(s: State)
    requires Inv(s) && |s.inbox| > 0
    ensures Inv(Deliver(s))
  {
    hide TaskOk;
    var s' := Deliver(s);
    forall id: int | s.inbox[0] == id || Shows(s, id)
      ensures Shows(s', id)
    {
      DeliverShows(s, id);
    }
    forall u | 0 <= u < |s'.tasks|
      ensures ServedTask(s', s'.tasks[u])
    {
      assert ServedTask(s, s.tasks[u]);
      assert InFetch(s.tasks[u].worker) ==> Transfers(s.tasks, u, IdOf(s.tasks[u].worker));
    }
    forall c | 0 <= c < |s'.clients|
      ensures ClientOk(s', s'.clients[c])
    {
      assert ClientOk(s, s.clients[c]);
    }
  }

  lemma StepInv(s: State, e: Event)
    requires Inv(s) && Enabled(s, e)
    ensures Inv(Step(s, e))
  {
    match e
    case StepWorker(t, ch) =>
      WorkerIds(s, t, ch);
      WorkerEntries(s, t, ch);
      WorkerServed(s, t, ch);
      WorkerClients(s, t, ch);
      WorkerDropped(s, t, ch);
    case StepClient(c, ch) => ClientInv(s, c, ch);
    case StepDeliver => DeliverInv(s);
    case StepStray(id) =>
      OtherClients(s, Step(s, e));
      QuietInv(s, Step(s, e));
    case StepTick(ms) =>
      OtherClients(s, Step(s, e));
      QuietInv(s, Step(s, e));
  }

  lemma OtherClients(s: State, s': State)
    requires Clients(s) && s' == s.(inbox := s'.inbox, clock := s'.clock) && s.inbox <= s'.inbox
    ensures Clients(s')
  {
    forall c | 0 <= c < |s'.clients|
      ensures ClientOk(s', s'.clients[c])
    {
      assert ClientOk(s, s.clients[c]);
    }
  }

  lemma NextInv(s: State, s': State)
    requires Inv(s) && Next(s, s')
    ensures Inv(s')
  {
    hide Inv, Step, Enabled;
    var e :| Enabled(s, e) && s' == Step(s, e);
    StepInv(s, e);
  }

  /** Every state of every run satisfies the invariant. */
  lemma {:induction false} RunInv(run: seq<State>, k: nat)
    requires IsRun(run) && k < |run|
    ensures Inv(run[k])
  {
    hide Inv, Next;
    if k == 0 {
      InitInv(run[0]);
    } else {
      RunInv(run, k - 1);
      assert Next(run[k - 1], run[k - 1 + 1]);
      NextInv(run[k - 1], run[k]);
    }
  }

  // ------------------------------------------------------------ the handshake

  /** A cancel() call that has set the flag and looked for the request id. */
  predicate Concluded(c: Client) {
    c.CSent? || c.CUnsent? || c.CMissed?
  }

  lemma ConcludedStays(s: State, s': State, c: nat)
    requires Next(s, s') && c < |s.clients| && Concluded(s.clients[c])
    ensures c < |s'.clients| && s'.clients[c] == s.clients[c]
  {
    hide Act, CancelRequest;
  }

  lemma {:induction false} ConcludedForGood(run: seq<State>, k: nat, n: nat, c: nat)
    requires IsRun(run) && k <= n < |run|
    requires c < |run[k].clients| && Concluded(run[k].clients[c])
    ensures c < |run[n].clients| && run[n].clients[c] == run[k].clients[c]
  {
    hide Next;
    if k < n {
      ConcludedForGood(run, k, n - 1, c);
      assert Next(run[n - 1], run[n - 1 + 1]);
      ConcludedStays(run[n - 1], run[n], c);
    }
  }

  /** No cancel is lost between the two processes.  From the moment a cancel()
      call has looked for the request id, at every later moment: if it found
      none, the worker never calls fetchToFd; if it found one and sent the http
      cancel, the message is still queued, or it was handled and then, as long
      as the transfer has not ended, the transfer's entry carries the flag,
      unless that entry went stale for more than 60 s before it was claimed. */
  lemma NoCancelLost(run: seq<State>, k: nat, n: nat, c: nat)
    requires IsRun(run) && k <= n < |run|
    requires c < |run[k].clients| && Concluded(run[k].clients[c])
    ensures var s := run[n]; var client := run[k].clients[c];
      && client.task < |s.tasks|
      && var task := s.tasks[client.task];
      && task.canceled
      && (client.CMissed? ==> !Fetched(task.worker) && !task.worker.WCall?)
      && (client.CSent? ==>
            && task.httpRequestId == client.id
            && (client.id in s.inbox || client.id in s.served)
            && (client.id in s.served && (Unclaimed(task.worker) || InFetch(task.worker)) ==>
                  FlagSeen(s.requests, client.id)
                  || (client.id in s.purged && s.clock - s.served[client.id] > STALE_REQUEST_MS)))
  {
    ConcludedForGood(run, k, n, c);
    RunInv(run, n);
    hide Next, Transfers, Entries;
    var s := run[n];
    assert ClientOk(s, s.clients[c]);
    var task := s.tasks[s.clients[c].task];
    assert TaskOk(task, s.nextId) && ServedTask(s, task);
  }

  /** A pre-cancel claimed in time: a transfer that begins within 60 s of the
      handling of its cancel begins with the flag set. */
  lemma ClaimSeesCancel(run: seq<State>, k: nat, t: nat, ch: Choice)
    requires IsRun(run) && k < |run| && t < |run[k].tasks| && run[k].tasks[t].worker.WCall? && !ch.fail && !ch.lost
    requires var id := run[k].tasks[t].worker.id;
      id in run[k].served && run[k].clock - run[k].served[id] <= STALE_REQUEST_MS
    ensures var s' := WorkerStep(run[k], t, ch);
      InFetch(s'.tasks[t].worker) && FlagSeen(s'.requests, IdOf(s'.tasks[t].worker))
  {
    RunInv(run, k);
    hide Next, Transfers, Entries;
    assert ServedTask(run[k], run[k].tasks[t]);
  }

  /** What the handling of a cancel drops: if the id was unknown, exactly the entries
      of others that have waited more than a minute for their transfer. */
  lemma DropsStaleOnly(s: State, id: int)
    requires |s.inbox| > 0 && id != s.inbox[0] && id in s.requests
    ensures var r := s.requests[id];
      if s.inbox[0] in s.requests || r.running || s.clock - r.created <= 60_000
      then id in Deliver(s).requests && Deliver(s).requests[id] == r
      else id !in Deliver(s).requests
  {
  }

  /** Exactly: when a transfer begins, its flag is set if and only if a cancel of
      its id was handled and no purge has dropped the entry since. */
  lemma ClaimIsExact(run: seq<State>, k: nat, t: nat, ch: Choice)
    requires IsRun(run) && k < |run| && t < |run[k].tasks| && run[k].tasks[t].worker.WCall? && !ch.fail && !ch.lost
    ensures var id := run[k].tasks[t].worker.id; var s' := WorkerStep(run[k], t, ch);
      && InFetch(s'.tasks[t].worker) && IdOf(s'.tasks[t].worker) == id
      && (FlagSeen(s'.requests, id) <==> id in run[k].served && id !in run[k].purged)
  {
    RunInv(run, k);
    hide Next;
    var s := run[k];
    assert ServedTask(s, s.tasks[t]);
    NotYetRunning(s, t);
  }

  /** The id of a transfer that has not begun has no running entry. */
  lemma NotYetRunning(s: State, t: nat)
    requires Ids(s) && Entries(s) && t < |s.tasks| && Unclaimed(s.tasks[t].worker)
    ensures var id := IdOf(s.tasks[t].worker); id in s.requests ==> !s.requests[id].running
  {
    assert TaskOk(s.tasks[t], s.nextId);
    forall u | Transfers(s.tasks, u, IdOf(s.tasks[t].worker))
      ensures u == t
    {
    }
  }

  // ---------------------------------------------------------- one more read

  /** Socket reads a worker may still make without looking at the flag. */
  function Budget(w: Worker): nat {
    if w.FRead? then 1 else 0
  }

  predicate Ended(w: Worker) {
    w.WReturn? || w.WMessage? || w.WState? || w.WDone?
  }

  /** Task `t` is in a cancelled transfer, or past it. */
  predicate Stopping(s: State, t: nat) {
    && t < |s.tasks|
    && var w := s.tasks[t].worker;
       Ended(w) || (InFetch(w) && FlagSeen(s.requests, IdOf(w)))
  }

  lemma ActStopping(k: Task, requests: map<int, Request>, nextId: int, now: int, ch: Choice)
    requires Ended(k.worker) || (InFetch(k.worker) && FlagSeen(requests, IdOf(k.worker)))
    ensures var o := Act(k, requests, nextId, now, ch);
      && (Ended(o.task.worker) || (InFetch(o.task.worker) && FlagSeen(o.requests, IdOf(o.task.worker))))
      && o.task.received + Budget(o.task.worker) <= k.received + Budget(k.worker)
  {
  }

  lemma StepStopping(s: State, e: Event, t: nat)
    requires Inv(s) && Enabled(s, e) && Stopping(s, t)
    ensures var s' := Step(s, e);
      && Stopping(s', t)
      && s'.tasks[t].received + Budget(s'.tasks[t].worker) <= s.tasks[t].received + Budget(s.tasks[t].worker)
  {
    hide Act, Served, Clients, TaskOk;
    var id := IdOf(s.tasks[t].worker);
    assert InFetch(s.tasks[t].worker) ==> Transfers(s.tasks, t, id);
    match e
    case StepWorker(u, ch) =>
      var k := s.tasks[u];
      if u == t {
        ActStopping(k, s.requests, s.nextId, s.clock, ch);
      } else {
        ActRequests(k, s.requests, s.nextId, s.clock, ch);
        assert InFetch(s.tasks[t].worker) ==> TaskOk(s.tasks[t], s.nextId);
        TransferId(s, t);
      }
    case _ =>
  }

  lemma TransferId(s: State, t: nat)
    requires Inv(s) && t < |s.tasks|
    ensures InFetch(s.tasks[t].worker) ==> IdOf(s.tasks[t].worker) > 0
  {
    assert TaskOk(s.tasks[t], s.nextId);
  }

  lemma NextStopping(s: State, s': State, t: nat)
    requires Inv(s) && Next(s, s') && Stopping(s, t)
    ensures Stopping(s', t)
    ensures s'.tasks[t].received + Budget(s'.tasks[t].worker) <= s.tasks[t].received + Budget(s.tasks[t].worker)
  {
    hide Inv, Step, Enabled, Stopping, Budget;
    var e :| Enabled(s, e) && s' == Step(s, e);
    StepStopping(s, e, t);
  }

  /** Once the http service has handled the cancel of a transfer that has not
      ended, the transfer makes at most one more socket read, and none if it was
      not already past its look at the flag. */
  lemma {:induction false} AtMostOneMoreRead(run: seq<State>, k: nat, n: nat, t: nat)
    requires IsRun(run) && k <= n < |run| && Stopping(run[k], t)
    ensures Stopping(run[n], t)
    ensures run[n].tasks[t].received + Budget(run[n].tasks[t].worker)
         <= run[k].tasks[t].received + Budget(run[k].tasks[t].worker)
  {
    hide Inv, Step, Enabled, Stopping, Budget;
    if k < n {
      AtMostOneMoreRead(run, k, n - 1, t);
      RunInv(run, n - 1);
      assert Next(run[n - 1], run[n - 1 + 1]);
      NextStopping(run[n - 1], run[n], t);
    }
  }

  // ------------------------------------------------------- map and final state

  /** The request map holds exactly the transfers under way, each once and
      running, and pre-cancelled ids; a transfer never loses its entry. */
  lemma EntriesExact(run: seq<State>, k: nat, id: int)
    requires IsRun(run) && k < |run|
    ensures var s := run[k];
      && ((id in s.requests && s.requests[id].running) <==> exists t :: Transfers(s.tasks, t, id))
      && (id in s.requests && !s.requests[id].running ==> s.requests[id].canceled)
      && (forall t, u :: Transfers(s.tasks, t, id) && Transfers(s.tasks, u, id) ==> t == u)
  {
    RunInv(run, k);
    hide Next, Served, Clients;
    forall t | Transfers(run[k].tasks, t, id)
      ensures id > 0
    {
      TransferId(run[k], t);
    }
  }

  /** Whoever sees a terminal state also sees its message. */
  lemma TerminalIsExplained(run: seq<State>, k: nat, t: nat)
    requires IsRun(run) && k < |run| && t < |run[k].tasks| && run[k].tasks[t].state.Terminal?
    ensures run[k].tasks[t].explained
  {
    RunInv(run, k);
    hide Next, Served, Clients, Entries;
    assert TaskOk(run[k].tasks[t], run[k].nextId);
  }
}
