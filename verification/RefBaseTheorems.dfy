/** The promises of RefBase, for every state of every interleaving. */
module RefBaseTheorems {
  import opened RefBase
  import opened RefBaseSafety

  // ------------------------------------------------------------- memory safety

  /** The next step calls into the object or runs its destructor. */
  predicate EntersObject(p: Pc) {
    || p.IncFirstRef? || p.DecLastStrong? || p.Destroy? || p.WeakLast?
    || p.TryAsk? || p.TryLastStrong?
  }

  predicate InDestructor(p: Pc) {
    p.DtorFlags? || p.DtorStrong? || p.DtorWeak? || p.DtorFreeBlock? || p.DtorEnd?
  }

  /** The next step reads or writes the control block. */
  predicate TouchesBlock(p: Pc) {
    p != Idle && p != DtorEnd(FromDecWeak)
  }

  lemma TouchesLive(m: Shared, t: Tally, p: Pc)
    requires Books(m, t) && Here(m, p) && AtMost(Weight(p), t)
    ensures EntersObject(p) ==> m.storage == Live
    ensures InDestructor(p) ==> m.storage == Destructing
    ensures TouchesBlock(p) ==> m.block
  {
    EntersLive(m, t, p);
    DestructorRuns(m, t, p);
    hide Books, Weight, EntersObject, InDestructor;
  }

  lemma EntersLive(m: Shared, t: Tally, p: Pc)
    requires Books(m, t) && Here(m, p) && AtMost(Weight(p), t)
    ensures EntersObject(p) ==> m.storage == Live
  {
    hide Blocks;
  }

  lemma DestructorRuns(m: Shared, t: Tally, p: Pc)
    requires Books(m, t) && Here(m, p) && AtMost(Weight(p), t)
    ensures InDestructor(p) ==> m.storage == Destructing
  {
    hide Blocks, Counts, Bias;
  }

  lemma HeldIsLive(m: Shared, t: Tally)
    requires Books(m, t)
    ensures m.sHeld > 0 ==> m.storage == Live && m.block
    ensures m.wHeld > 0 ==> m.block
    ensures m.life == WeakLifetime && m.wHeld > 0 ==> m.storage == Live
  {
  }

  /** No thread's next step touches freed memory, and whoever holds a reference
      may use what it refers to. */
  lemma NoUseAfterFree(run: seq<State>, k: nat, i: nat)
    requires IsRun(run) && k < |run| && i < |run[k].threads|
    ensures var s := run[k]; var p := s.threads[i];
      && (EntersObject(p) ==> s.m.storage == Live)
      && (InDestructor(p) ==> s.m.storage == Destructing)
      && (TouchesBlock(p) ==> s.m.block)
      && (s.m.sHeld > 0 ==> s.m.storage == Live && s.m.block)
      && (s.m.wHeld > 0 ==> s.m.block && (s.m.life == WeakLifetime ==> s.m.storage == Live))
  {
    hide Books, Here, Weight, Total;
    RunInv(run, k);
    var s := run[k];
    TotalCovers(s.threads, i);
    HeldIsLive(s.m, Total(s.threads));
    TouchesLive(s.m, Total(s.threads), s.threads[i]);
  }

  // ------------------------------------------------------------ the two counts

  /** The checks that abort the process in any build, before the step that makes
      them; the last is that of the destructor. */
  predicate Fatal(m: Shared, p: Pc) {
    match p
    case ReqAddStrong => m.strong <= 0 || m.strong == INITIAL_STRONG_VALUE
    case DecSub => BadStrong(m.strong)
    case WeakSub => BadWeak(m.weak)
    case DtorStrong(_) => m.strong == INITIAL_STRONG_VALUE
    case _ => false
  }

  /** The assertions of debug builds that would fail in the next step. */
  predicate AssertFails(m: Shared, p: Pc) {
    match p
    case IncAddStrong(_) => m.strong <= 0
    case IncUnbias => m.strong <= INITIAL_STRONG_VALUE
    case TryLoad => m.strong < 0
    case _ => AddsWeak(p) && m.weak < 0
  }

  lemma NeverFatalHere(m: Shared, t: Tally, p: Pc)
    requires Books(m, t) && Here(m, p) && AtMost(Weight(p), t)
    ensures !Fatal(m, p)
    ensures AssertFails(m, p) <==> p == IncAddStrong(ByWeak) && m.strong == 0
  {
    assert m.strong <= INITIAL_STRONG_VALUE + MAX_COUNT;
    assert t.s <= t.w;
    GoodCounts(m.strong);
    GoodCounts(m.weak);
  }

  /** The counts that pass the checks of release builds. */
  lemma GoodCounts(c: int)
    ensures !BadStrong(c) <==> 0 < c <= 0xf_ffff || 0x1000_0000 <= c <= 0x100f_ffff
    ensures !BadWeak(c) <==> 0 < c <= 0xf_ffff
  {
  }

  /** In every state the weak count is exactly the references held and in
      flight, so it is at least the strong count without its bias; both fit a
      32-bit integer; the bias is subtracted at most once, by at most one
      thread, onFirstRef runs at most once, and no check ever aborts.  Of the
      assertions in debug builds one alone can fail: that of incStrong, exactly
      when its caller has only a weak reference to an object that lives on it and
      the strong count is zero. */
  lemma CountsAreExact(run: seq<State>, k: nat, i: nat)
    requires IsRun(run) && k < |run| && i < |run[k].threads|
    ensures var s := run[k]; var t := Total(s.threads);
      && s.m.weak == s.m.wHeld + s.m.sHeld + t.w
      && s.m.strong == Base(s.m) + s.m.sHeld + t.s
      && s.m.strong - Base(s.m) <= s.m.weak
      && 0 <= s.m.weak <= MAX_COUNT
      && 0 <= s.m.strong <= INITIAL_STRONG_VALUE + MAX_COUNT
      && s.m.log.unbiased <= 1 && t.fix + s.m.log.unbiased <= 1
      && s.m.log.firstRefs <= s.m.log.unbiased
      && !Fatal(s.m, s.threads[i])
      && (AssertFails(s.m, s.threads[i]) <==> s.threads[i] == IncAddStrong(ByWeak) && s.m.strong == 0)
  {
    hide Here, Weight, Total, Fatal, AssertFails, Storages, Blocks;
    RunInv(run, k);
    var s := run[k];
    TotalCovers(s.threads, i);
    NeverFatalHere(s.m, Total(s.threads), s.threads[i]);
  }

  // ------------------------------------------------------------- destruction

  /** The object is destroyed at most once and the control block freed at most
      once, never before the object's destruction has begun; with strong
      lifetime the destructor runs only after the strong count has gone from 1
      to 0, with weak lifetime only after the weak count has. */
  lemma ReclaimedOnce(run: seq<State>, k: nat)
    requires IsRun(run) && k < |run|
    ensures var m := run[k].m;
      && m.log.frees <= m.log.dtors <= 1
      && (m.block <==> m.log.frees == 0)
      && (m.storage == Live <==> m.log.dtors == 0)
      && (m.life == StrongLifetime ==>
            && m.log.dtors <= m.log.zeroStrong <= 1
            && (m.log.zeroStrong == 1 ==> m.strong == 0)
            && (m.log.frees == 1 ==> m.storage == Freed && m.weak == 0))
      && (m.life == WeakLifetime ==>
            && m.log.dtors <= m.log.zeroWeak <= 1
            && (m.log.zeroWeak == 1 ==> m.weak == 0)
            && (m.weak > 0 ==> m.storage == Live))
  {
    hide Here, Weight, Total;
    RunInv(run, k);
  }

  /** Reclamation completes: when no call is in flight and no reference is held,
      an object that was ever strongly referenced (strong lifetime) or
      referenced at all (weak lifetime) is gone, its control block too.  An
      object never referenced so far is still there. */
  lemma NothingLeaks(run: seq<State>, k: nat)
    requires IsRun(run) && k < |run|
    requires run[k].m.sHeld == 0 && run[k].m.wHeld == 0
    requires forall j :: 0 <= j < |run[k].threads| ==> run[k].threads[j] == Idle
    ensures var m := run[k].m;
      var referenced := if m.life == StrongLifetime then m.log.unbiased == 1 else m.log.taken > 0;
      if referenced then m.storage == Freed && !m.block else m.storage == Live && m.block
  {
    hide Here, Weight;
    RunInv(run, k);
    TotalIdle(run[k].threads);
  }

  // -------------------------------------------------------------- promotion

  /** What one step does to a dead object: nothing that revives it. */
  lemma ActDead(m: Shared, t: Tally, p: Pc, ch: Choice)
    requires Ready(m, t, p, ch) && m.life == StrongLifetime && m.log.zeroStrong == 1
    ensures var m' := Act(m, p, ch).m;
      m'.life == StrongLifetime && m'.log.zeroStrong >= 1 && m'.log.promoted == m.log.promoted
  {
    DeadHasNone(m, t, p, ch);
    ActKeepsLife(m, p, ch);
    ActKeepsLog(m, p, ch);
    hide *;
    ActOnZero(m, p, ch);
  }

  lemma DeadHasNone(m: Shared, t: Tally, p: Pc, ch: Choice)
    requires Ready(m, t, p, ch) && m.life == StrongLifetime && m.log.zeroStrong == 1
    ensures m.strong == 0 && Local(m.life, p) && (p == Idle ==> HasHandle(m, ch.call)) && p != TryAdd
  {
  }

  lemma ActOnZero(m: Shared, p: Pc, ch: Choice)
    requires m.strong == 0 && Local(m.life, p) && (p == Idle ==> HasHandle(m, ch.call)) && p != TryAdd
    ensures Act(m, p, ch).m.log.promoted == m.log.promoted
  {
  }

  lemma StepDead(s: State, i: nat, ch: Choice)
    requires Inv(s) && Enabled(s, i, ch) && s.m.life == StrongLifetime && s.m.log.zeroStrong == 1
    ensures var m' := Step(s, i, ch).m;
      m'.life == StrongLifetime && m'.log.zeroStrong == 1 && m'.log.promoted == s.m.log.promoted
  {
    hide Act, Weight, Total, Books, Here;
    InvReady(s, i, ch);
    ActDead(s.m, Total(s.threads), s.threads[i], ch);
    StepInv(s, i, ch);
    BooksBound(Step(s, i, ch).m, Total(Step(s, i, ch).threads));
  }

  lemma NextDead(s: State, s': State)
    requires Inv(s) && Next(s, s')
    requires s.m.life == StrongLifetime && s.m.log.zeroStrong == 1
    ensures s'.m.life == StrongLifetime && s'.m.log.zeroStrong == 1
    ensures s'.m.log.promoted == s.m.log.promoted
  {
    hide Inv, Step, Enabled;
    var i: nat, ch: Choice :| Enabled(s, i, ch) && s' == Step(s, i, ch);
    StepDead(s, i, ch);
  }

  lemma GoneMeansZero(s: State)
    requires Inv(s) && s.m.life == StrongLifetime && s.m.log.zeroStrong == 1
    ensures s.m.strong == 0
  {
    hide Act, Weight, Total, Here;
  }

  /** With strong lifetime, once the strong count has gone to zero it stays
      there and no later attemptIncStrong succeeds, however the run goes on. */
  lemma {:induction false} NoResurrection(run: seq<State>, k: nat, n: nat)
    requires IsRun(run) && k <= n < |run|
    requires run[k].m.life == StrongLifetime && run[k].m.log.zeroStrong == 1
    ensures var m := run[n].m;
      && m.life == StrongLifetime && m.log.zeroStrong == 1 && m.strong == 0
      && m.log.promoted == run[k].m.log.promoted
  {
    hide Inv, Next;
    RunInv(run, n);
    if k < n {
      NoResurrection(run, k, n - 1);
      RunInv(run, n - 1);
      assert Next(run[n - 1], run[n - 1 + 1]);
      NextDead(run[n - 1], run[n]);
    }
    GoneMeansZero(run[n]);
  }

  /** In attemptIncStrong, before it has decided. */
  predicate Promoting(p: Pc) {
    p.TryLoad? || p.TryCas? || p.TryFlags? || p.TryFirstCas? || p.TryAsk? || p.TryAdd?
  }

  /** The counts and references, as they were. */
  predicate SameReferences(m: Shared, m': Shared) {
    && m'.strong == m.strong && m'.weak == m.weak && m'.sHeld == m.sHeld && m'.wHeld == m.wHeld
    && m'.storage == m.storage && m'.block == m.block && m'.log.promoted == m.log.promoted
  }

  lemma ActPromotes(m: Shared, t: Tally, p: Pc, ch: Choice)
    requires Ready(m, t, p, ch) && Promoting(p)
    ensures var o := Act(m, p, ch);
      && (o.m.log.promoted > m.log.promoted ==> m.storage == Live && m.block && o.m.strong == m.strong + 1)
      && (o.p == WeakSub && m.life == StrongLifetime ==> m.log.zeroStrong == 1)
  {
    hide First, Cleaner;
  }

  lemma ActDecides(m: Shared, p: Pc, ch: Choice)
    requires Promoting(p) && Local(m.life, p)
    ensures var o := Act(m, p, ch);
      && (o.m.log.promoted == m.log.promoted ==> SameReferences(m, o.m) && (Promoting(o.p) || o.p == WeakSub))
      && (o.m.log.promoted != m.log.promoted ==>
            o.m.log.promoted == m.log.promoted + 1 && (o.p == Idle || o.p == TryLastStrong || o.p == TryUnbias))
      && (p == TryAdd ==> o.m.log.promoted == m.log.promoted + 1)
      && (p == TryAsk ==> o.p == if ch.agree then TryAdd else WeakSub)
      && o.m.log.calls.refused == (m.log.calls.refused + if p == TryAsk && !ch.agree then 1 else 0)
      && (m.life == WeakLifetime && p != TryAsk ==> o.p != WeakSub)
      && ((p.TryCas? || p.TryFirstCas?) && p.cur == m.strong && !ch.spurious ==> o.m.log.promoted > m.log.promoted)
  {
  }

  /** attemptIncStrong is exact.  A step of it commits to success, takes a unit of the
      strong count, and finds the object alive; or it gives up, having changed
      nothing but the weak count it is about to restore; or it goes on, having
      changed nothing.  With strong lifetime it gives up only when the last strong
      reference is gone for good; with weak lifetime exactly when the object, asked,
      refuses, and once it has agreed the next step commits. */
  lemma PromotionIsExact(run: seq<State>, k: nat, i: nat, ch: Choice)
    requires IsRun(run) && k < |run| && Enabled(run[k], i, ch) && Promoting(run[k].threads[i])
    ensures var s, s' := run[k], Step(run[k], i, ch); var p, p' := s.threads[i], s'.threads[i];
      && (s'.m.log.promoted > s.m.log.promoted ==>
            && s'.m.log.promoted == s.m.log.promoted + 1
            && s.m.storage == Live && s.m.block && s'.m.strong == s.m.strong + 1
            && (p' == Idle || p' == TryLastStrong || p' == TryUnbias))
      && (s'.m.log.promoted <= s.m.log.promoted ==> SameReferences(s.m, s'.m) && (Promoting(p') || p' == WeakSub))
      && (s.m.life == StrongLifetime && p' == WeakSub ==> s.m.log.zeroStrong == 1)
      && (s.m.life == WeakLifetime ==> (p' == WeakSub <==> p == TryAsk && !ch.agree))
      && (p == TryAsk && ch.agree ==> p' == TryAdd)
      && (p == TryAdd ==> s'.m.log.promoted > s.m.log.promoted)
      && s'.m.log.calls.refused == (s.m.log.calls.refused + if p == TryAsk && !ch.agree then 1 else 0)
      && ((p.TryCas? || p.TryFirstCas?) && p.cur == s.m.strong && !ch.spurious ==>
            s'.m.log.promoted > s.m.log.promoted)
  {
    hide Act, Weight, Total, Books, Here;
    RunInv(run, k);
    InvReady(run[k], i, ch);
    ActPromotes(run[k].m, Total(run[k].threads), run[k].threads[i], ch);
    HereIsLocal(run[k].m, run[k].threads[i]);
    ActDecides(run[k].m, run[k].threads[i], ch);
  }

  lemma HereIsLocal(m: Shared, p: Pc)
    requires Here(m, p)
    ensures Local(m.life, p)
  {
  }

  /** An object that has agreed to be revived is told that this was unneeded exactly if
      another strong reference exists by then; and the bias goes exactly if this is
      the first one. */
  lemma UnneededIsExact(run: seq<State>, k: nat, i: nat, ch: Choice)
    requires IsRun(run) && k < |run| && Enabled(run[k], i, ch) && run[k].threads[i] == TryAdd
    ensures var s, s' := run[k], Step(run[k], i, ch); var others := s.m.sHeld + Total(s.threads).s;
      s'.threads[i] == if others > 0 then TryLastStrong
                       else if s.m.log.unbiased == 0 then TryUnbias else Idle
  {
    CountsAreExact(run, k, i);
    RunInv(run, k);
    hide IsRun, Weight, Total, Here;
  }

  /** What follows: the weak unit is given back when it gives up, and when it has
      succeeded the caller gets one strong reference, at once or with the step after
      the commitment. */
  lemma PromotionEnds(run: seq<State>, k: nat, i: nat, ch: Choice)
    requires IsRun(run) && k < |run| && Enabled(run[k], i, ch)
    requires var p := run[k].threads[i]; Promoting(p) || p == WeakSub || p == TryLastStrong || p == TryUnbias
    ensures var s, s' := run[k], Step(run[k], i, ch); var p, p' := s.threads[i], s'.threads[i];
      && (p == WeakSub ==> s'.m == s.m.(weak := s.m.weak - 1, log := s'.m.log))
      && (p == TryLastStrong ==> s'.m == s.m.(sHeld := s.m.sHeld + 1, log := s'.m.log))
      && (p == TryUnbias ==>
            s'.m == s.m.(sHeld := s.m.sHeld + 1, strong := s.m.strong - INITIAL_STRONG_VALUE, log := s'.m.log))
      && (Promoting(p) && p' == Idle ==>
            s'.m == s.m.(sHeld := s.m.sHeld + 1, strong := s.m.strong + 1, log := s'.m.log))
  {
    hide Next, IsRun, Weight, Total;
  }

  /** attemptIncWeak by a caller that holds a reference never fails: each of its
      steps finds the weak count positive. */
  lemma AttemptIncWeakSucceeds(run: seq<State>, k: nat, i: nat)
    requires IsRun(run) && k < |run| && i < |run[k].threads|
    requires var p := run[k].threads[i]; (p.TryWeakLoad? || p.TryWeakCas?) && p.who != Alone
    ensures run[k].m.weak > 0
  {
    hide Weight, Total;
    RunInv(run, k);
    assert Here(run[k].m, run[k].threads[i]);
  }

  /** So it either keeps trying, with nothing changed, or ends with one weak reference
      more; and it ends when the count has stayed as it saw it. */
  lemma AttemptIncWeakTakes(run: seq<State>, k: nat, i: nat, ch: Choice)
    requires IsRun(run) && k < |run| && Enabled(run[k], i, ch)
    requires var p := run[k].threads[i]; (p.TryWeakLoad? || p.TryWeakCas?) && p.who != Alone
    ensures var s, s' := run[k], Step(run[k], i, ch); var p, p' := s.threads[i], s'.threads[i];
      && (p' == Idle ==> s'.m == s.m.(weak := s.m.weak + 1, wHeld := s.m.wHeld + 1, log := s'.m.log))
      && (p' != Idle ==> s'.m == s.m && p' == TryWeakCas(p.who, s.m.weak))
      && (p' == Idle <==> p.TryWeakCas? && p.cur == s.m.weak && !ch.spurious)
  {
    AttemptIncWeakSucceeds(run, k, i);
    hide Next, IsRun, Weight, Total;
  }
}
