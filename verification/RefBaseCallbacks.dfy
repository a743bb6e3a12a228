/** The virtual callbacks of RefBase: each is called when it is due, once, and its
    answer is respected. */
module RefBaseCallbacks {
  import opened Common
  import opened RefBase
  import opened RefBaseSafety

  // ------------------------------------------------------------- calls about to be made

  function FirstRefDue(p: Pc): nat {
    if p.IncFirstRef? then 1 else 0
  }

  function LastRefDue(p: Pc): nat {
    if p.DecLastStrong? || p.TryLastStrong? then 1 else 0
  }

  function RevivalDue(p: Pc): nat {
    if p.TryAdd? then 1 else 0
  }

  /** The calls made and those about to be made are those that are due: onFirstRef for
      the first strong reference, unless attemptIncStrong took it; onLastStrongRef
      for every time the last one went, and for every one that an answer of
      onIncStrongAttempted left unneeded; and a strong reference for every answer
      that agreed. */
  ghost predicate CallsDue(m: Shared, threads: seq<Pc>) {
    && m.log.firstRefs + Sum(threads, FirstRefDue) + m.log.calls.silent == m.log.unbiased
    && m.log.calls.lastRefs + Sum(threads, LastRefDue) == m.log.zeroStrong + m.log.calls.beaten
    && m.log.calls.revived + Sum(threads, RevivalDue) == m.log.calls.agreed
  }

  lemma ActFirstRef(m: Shared, p: Pc, ch: Choice)
    requires p == Idle ==> HasHandle(m, ch.call)
    ensures var o := Act(m, p, ch);
      o.m.log.firstRefs + FirstRefDue(o.p) + o.m.log.calls.silent - o.m.log.unbiased
      == m.log.firstRefs + FirstRefDue(p) + m.log.calls.silent - m.log.unbiased
  {
  }

  lemma ActLastRef(m: Shared, p: Pc, ch: Choice)
    requires p == Idle ==> HasHandle(m, ch.call)
    ensures var o := Act(m, p, ch);
      o.m.log.calls.lastRefs + LastRefDue(o.p) - o.m.log.zeroStrong - o.m.log.calls.beaten
      == m.log.calls.lastRefs + LastRefDue(p) - m.log.zeroStrong - m.log.calls.beaten
  {
  }

  lemma ActRevival(m: Shared, p: Pc, ch: Choice)
    requires p == Idle ==> HasHandle(m, ch.call)
    ensures var o := Act(m, p, ch);
      o.m.log.calls.revived + RevivalDue(o.p) - o.m.log.calls.agreed
      == m.log.calls.revived + RevivalDue(p) - m.log.calls.agreed
  {
  }

  lemma StepCalls(s: State, i: nat, ch: Choice)
    requires CallsDue(s.m, s.threads) && Enabled(s, i, ch)
    ensures var s' := Step(s, i, ch); CallsDue(s'.m, s'.threads)
  {
    var p := s.threads[i];
    var p' := Act(s.m, p, ch).p;
    ActFirstRef(s.m, p, ch);
    ActLastRef(s.m, p, ch);
    ActRevival(s.m, p, ch);
    hide Act, FirstRefDue, LastRefDue, RevivalDue, Sum;
    SumPut(s.threads, FirstRefDue, i, p');
    SumPut(s.threads, LastRefDue, i, p');
    SumPut(s.threads, RevivalDue, i, p');
  }

  lemma NewCalls(s: State)
    requires Init(s)
    ensures CallsDue(s.m, s.threads)
  {
    SumIsZero(s.threads, FirstRefDue);
    SumIsZero(s.threads, LastRefDue);
    SumIsZero(s.threads, RevivalDue);
  }

  lemma NextCalls(s: State, s': State)
    requires CallsDue(s.m, s.threads) && Next(s, s')
    ensures CallsDue(s'.m, s'.threads)
  {
    hide CallsDue, Step, Enabled;
    var i: nat, ch: Choice :| Enabled(s, i, ch) && s' == Step(s, i, ch);
    StepCalls(s, i, ch);
  }

  lemma {:induction false} RunCalls(run: seq<State>, k: nat)
    requires IsRun(run) && k < |run|
    ensures CallsDue(run[k].m, run[k].threads)
  {
    hide Next, CallsDue, Init;
    if k == 0 {
      NewCalls(run[0]);
    } else {
      RunCalls(run, k - 1);
      assert Next(run[k - 1], run[k - 1 + 1]);
      NextCalls(run[k - 1], run[k]);
    }
  }

  // ---------------------------------------------------------------- what it promises

  /** No callback is missed or made twice: when no call is in flight, onFirstRef has
      run exactly once if the object was ever strongly referenced (and not at all if
      attemptIncStrong was first), onLastStrongRef once for every time the last
      strong reference went and for every unneeded one, and every answer that
      agreed has given a strong reference. */
  lemma EveryCallIsMade(run: seq<State>, k: nat)
    requires IsRun(run) && k < |run|
    requires forall j :: 0 <= j < |run[k].threads| ==> run[k].threads[j] == Idle
    ensures var log := run[k].m.log;
      && log.firstRefs + log.calls.silent == log.unbiased <= 1
      && log.calls.lastRefs == log.zeroStrong + log.calls.beaten
      && log.calls.revived == log.calls.agreed
  {
    hide Next, Books, Here;
    RunCalls(run, k);
    SumIsZero(run[k].threads, FirstRefDue);
    SumIsZero(run[k].threads, LastRefDue);
    SumIsZero(run[k].threads, RevivalDue);
    RunInv(run, k);
    BiasOnce(run[k]);
  }

  lemma BiasOnce(s: State)
    requires Inv(s)
    ensures s.m.log.unbiased <= 1
  {
    hide Weight, Total, Here;
  }

  /** In any state: the strong references taken on an answer of the object are the
      answers that agreed, but for the threads that are about to take theirs; so
      always taking one, or never, is no implementation.  With strong lifetime the
      object is never asked. */
  lemma AnswersAreRespected(run: seq<State>, k: nat)
    requires IsRun(run) && k < |run|
    ensures var s := run[k];
      && s.m.log.calls.revived + Sum(s.threads, RevivalDue) == s.m.log.calls.agreed
      && (s.m.life == StrongLifetime ==> s.m.log.calls.agreed == s.m.log.calls.refused == 0)
  {
    hide Next;
    RunCalls(run, k);
    RunUnasked(run, k);
  }

  lemma StepUnasked(s: State, i: nat, ch: Choice)
    requires Inv(s) && Enabled(s, i, ch) && Unasked(s)
    ensures Unasked(Step(s, i, ch))
  {
    hide Books, Total, Weight;
    assert Here(s.m, s.threads[i]);
  }

  predicate Unasked(s: State) {
    s.m.life == StrongLifetime ==> s.m.log.calls.agreed == s.m.log.calls.refused == 0
  }

  lemma NextUnasked(s: State, s': State)
    requires Inv(s) && Next(s, s') && Unasked(s)
    ensures Unasked(s')
  {
    hide Inv, Unasked, Step, Enabled;
    var i: nat, ch: Choice :| Enabled(s, i, ch) && s' == Step(s, i, ch);
    StepUnasked(s, i, ch);
  }

  lemma {:induction false} RunUnasked(run: seq<State>, k: nat)
    requires IsRun(run) && k < |run|
    ensures Unasked(run[k])
  {
    hide Next, Inv;
    if k > 0 {
      RunUnasked(run, k - 1);
      RunInv(run, k - 1);
      assert Next(run[k - 1], run[k - 1 + 1]);
      hide Unasked;
      NextUnasked(run[k - 1], run[k]);
    }
  }
}
