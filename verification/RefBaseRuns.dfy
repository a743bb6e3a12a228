/** Runs that do happen: the race that attemptIncStrong speaks of, and the one
    assertion that callers within their contract can trip. */
module RefBaseRuns {
  import opened RefBase
  import opened RefBaseTheorems

  function Last(run: seq<State>): State
    requires |run| > 0
  {
    run[|run| - 1]
  }

  function Does(call: Call): Choice {
    Choice(call, false, false)
  }

  /** One more step of thread `i`, which is `call` if it is idle. */
  lemma Extend(run: seq<State>, i: nat, call: Call) returns (longer: seq<State>)
    requires IsRun(run) && Enabled(Last(run), i, Does(call))
    ensures |longer| > 0 && IsRun(longer) && Last(longer) == Step(Last(run), i, Does(call))
  {
    var s' := Step(Last(run), i, Does(call));
    assert Next(Last(run), s');
    hide Next, Step, Enabled, Init;
    longer := run + [s'];
    forall k | 0 <= k < |longer| - 1
      ensures Next(longer[k], longer[k + 1])
    {
      if k < |run| - 1 {
        assert Next(run[k], run[k + 1]);
      }
    }
  }

  function New(life: Lifetime, threads: nat): State {
    State(Shared(life, INITIAL_STRONG_VALUE, 0, Live, true, 0, 0, NO_HISTORY),
          seq(threads, _ => Idle))
  }

  lemma Begun(life: Lifetime, threads: nat) returns (run: seq<State>)
    ensures |run| > 0 && IsRun(run) && Last(run) == New(life, threads)
  {
    run := [New(life, threads)];
  }

  /** The same, to a state that is written out. */
  lemma Go(run: seq<State>, i: nat, call: Call, s': State) returns (longer: seq<State>)
    requires |run| > 0 && IsRun(run) && Enabled(Last(run), i, Does(call))
    requires s' == Step(Last(run), i, Does(call))
    ensures |longer| > 0 && IsRun(longer) && Last(longer) == s'
  {
    hide IsRun, Enabled, Step;
    longer := Extend(run, i, call);
  }

  // ------------------------------------------------------------------- the race

  /** With one weak reference held, and the first incStrong under way. */
  function Early(life: Lifetime, strong: int, weak: int, taken: nat, p: Pc, q: Pc): State {
    State(Shared(life, strong, weak, Live, true, 0, 1, NO_HISTORY.(taken := taken)), [p, q])
  }

  lemma WeakFirst(life: Lifetime) returns (run: seq<State>)
    ensures |run| > 0 && IsRun(run) && Last(run) == Early(life, INITIAL_STRONG_VALUE, 1, 1, Idle, Idle)
  {
    hide IsRun;
    run := Begun(life, 2);
    run := Extend(run, 0, CallIncWeak(Alone));
    run := Extend(run, 0, CallDecWeak);
  }

  lemma FirstIncStrong(life: Lifetime) returns (run: seq<State>)
    ensures |run| > 0 && IsRun(run) && Last(run) == Early(life, INITIAL_STRONG_VALUE + 1, 2, 2, IncUnbias, Idle)
  {
    hide IsRun;
    run := WeakFirst(life);
    run := Go(run, 0, CallIncStrong(Alone), Early(life, INITIAL_STRONG_VALUE, 1, 1, IncAddWeak(Alone), Idle));
    run := Go(run, 0, CallDecWeak, Early(life, INITIAL_STRONG_VALUE, 2, 2, IncAddStrong(Alone), Idle));
    run := Go(run, 0, CallDecWeak, Early(life, INITIAL_STRONG_VALUE + 1, 2, 2, IncUnbias, Idle));
  }

  /** A weak reference is there before the first incStrong, and a thread promotes it
      while that call has still to subtract the bias: it finds the strong count
      above INITIAL_STRONG_VALUE and leaves the subtraction to the other. */
  lemma PromotionDuringFirstIncStrong(life: Lifetime)
    ensures exists run ::
      && IsRun(run)
      && Last(run).threads == [IncUnbias, TryCas(INITIAL_STRONG_VALUE + 1)]
      && Last(run).m.strong == INITIAL_STRONG_VALUE + 1
  {
    hide IsRun;
    var biased := INITIAL_STRONG_VALUE + 1;
    var run := FirstIncStrong(life);
    run := Go(run, 1, CallAttemptIncStrong, Early(life, biased, 2, 2, IncUnbias, TryAddWeak));
    run := Go(run, 1, CallDecWeak, Early(life, biased, 3, 3, IncUnbias, TryLoad));
    run := Go(run, 1, CallDecWeak, Early(life, biased, 3, 3, IncUnbias, TryCas(biased)));
  }

  // ------------------------------------------------------------------ the assertion

  /** After the first incStrong, and `taken` increments of the weak count. */
  function Unbiased(taken: nat): History {
    NO_HISTORY.(taken := taken, unbiased := 1, firstRefs := 1)
  }

  /** One thread at `p`, weak lifetime, some references held. */
  function Lone(strong: int, weak: int, sHeld: nat, wHeld: nat, log: History, p: Pc): State {
    State(Shared(WeakLifetime, strong, weak, Live, true, sHeld, wHeld, log), [p])
  }

  lemma StrongBegun() returns (run: seq<State>)
    ensures |run| > 0 && IsRun(run)
    ensures Last(run) == Lone(INITIAL_STRONG_VALUE + 1, 1, 0, 0, NO_HISTORY.(taken := 1), IncUnbias)
  {
    hide IsRun;
    var log := NO_HISTORY.(taken := 1);
    run := Begun(WeakLifetime, 1);
    run := Go(run, 0, CallIncStrong(Alone), Lone(INITIAL_STRONG_VALUE, 0, 0, 0, NO_HISTORY, IncAddWeak(Alone)));
    run := Go(run, 0, CallDecWeak, Lone(INITIAL_STRONG_VALUE, 1, 0, 0, log, IncAddStrong(Alone)));
    run := Go(run, 0, CallDecWeak, Lone(INITIAL_STRONG_VALUE + 1, 1, 0, 0, log, IncUnbias));
  }

  lemma StrongOnce() returns (run: seq<State>)
    ensures |run| > 0 && IsRun(run) && Last(run) == Lone(1, 1, 1, 0, Unbiased(1), Idle)
  {
    hide IsRun;
    run := StrongBegun();
    run := Go(run, 0, CallDecWeak, Lone(1, 1, 1, 0, Unbiased(1).(firstRefs := 0), IncFirstRef));
    run := Go(run, 0, CallDecWeak, Lone(1, 1, 1, 0, Unbiased(1), Idle));
  }

  lemma WeakToo() returns (run: seq<State>)
    ensures |run| > 0 && IsRun(run) && Last(run) == Lone(1, 2, 1, 1, Unbiased(2), Idle)
  {
    hide IsRun;
    run := StrongOnce();
    run := Go(run, 0, CallIncWeak(ByStrong), Lone(1, 1, 1, 0, Unbiased(1), WeakAdd(ByStrong)));
    run := Go(run, 0, CallDecWeak, Lone(1, 2, 1, 1, Unbiased(2), Idle));
  }

  /** And when it is released again. */
  function Gone(): History {
    Unbiased(2).(zeroStrong := 1, calls := NO_CALLBACKS.(lastRefs := 1))
  }

  lemma WeakOnly() returns (run: seq<State>)
    ensures |run| > 0 && IsRun(run) && Last(run) == Lone(0, 1, 0, 1, Gone(), Idle)
  {
    hide IsRun;
    run := WeakToo();
    run := Go(run, 0, CallDecStrong, Lone(1, 2, 0, 1, Unbiased(2), DecSub));
    var log := Unbiased(2).(zeroStrong := 1);
    run := Go(run, 0, CallDecWeak, Lone(0, 2, 0, 1, log, DecLastStrong));
    log := Gone();
    run := Go(run, 0, CallDecWeak, Lone(0, 2, 0, 1, log, DecFlags));
    run := Go(run, 0, CallDecWeak, Lone(0, 2, 0, 1, log, WeakSub));
    run := Go(run, 0, CallDecWeak, Lone(0, 1, 0, 1, log, Idle));
  }

  /** With weak lifetime, the holder of a weak reference may take a strong one when
      the last is gone; a debug build then stops at the assertion in incStrong. */
  lemma RevivalTripsAssertion()
    ensures exists run :: IsRun(run) && |Last(run).threads| == 1 && AssertFails(Last(run).m, Last(run).threads[0])
  {
    hide IsRun;
    var log := Gone();
    var run := WeakOnly();
    run := Go(run, 0, CallIncStrong(ByWeak), Lone(0, 1, 0, 1, log, IncAddWeak(ByWeak)));
    run := Go(run, 0, CallDecWeak, Lone(0, 2, 0, 1, log.(taken := 3), IncAddStrong(ByWeak)));
  }
}
