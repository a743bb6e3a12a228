/** The control block as an object whose atomics are updated in place.  Each
    method call is one atomic step of one thread; the specification is the step
    function of the state machine. */
module WeakrefImpl {
  import opened RefBase
  import opened RefBaseSafety

  class Weakref {
    const life: Lifetime
    var mStrong: int
    var mWeak: int
    var storage: Storage
    var block: bool
    var sHeld: nat
    var wHeld: nat
    var log: History
    var threads: seq<Pc>

    ghost function View(): State
      reads this
    {
      State(Shared(life, mStrong, mWeak, storage, block, sHeld, wHeld, log), threads)
    }

    constructor (life: Lifetime, callers: nat)
      ensures Init(View()) && this.life == life && |threads| == callers
    {
      this.life := life;
      mStrong, mWeak := INITIAL_STRONG_VALUE, 0;
      storage, block := Live, true;
      sHeld, wHeld := 0, 0;
      log := NO_HISTORY;
      threads := seq(callers, _ => Idle);
    }

    // ------------------------------------------------------------- the atomics

    method FetchAddStrong(delta: int) returns (old_: int)
      modifies this`mStrong
      ensures old_ == old(mStrong) && mStrong == old(mStrong) + delta
    {
      old_ := mStrong;
      mStrong := mStrong + delta;
    }

    method FetchAddWeak(delta: int) returns (old_: int)
      modifies this`mWeak
      ensures old_ == old(mWeak) && mWeak == old(mWeak) + delta
    {
      old_ := mWeak;
      mWeak := mWeak + delta;
    }

    /** compare_exchange_weak: may fail spuriously, and reports the value seen. */
    method CompareExchangeStrong(expected: int, desired: int, spurious: bool) returns (ok: bool, seen: int)
      modifies this`mStrong
      ensures ok <==> old(mStrong) == expected && !spurious
      ensures seen == old(mStrong) && mStrong == if ok then desired else old(mStrong)
    {
      ok := mStrong == expected && !spurious;
      seen := mStrong;
      if ok { mStrong := desired; }
    }

    method FreeControlBlock()
      modifies this`block, this`log
      ensures !block && log == old(log).(frees := old(log).frees + 1)
    {
      block := false;
      log := log.(frees := log.frees + 1);
    }

    method SubtractBias()
      modifies this`mStrong, this`log
      ensures mStrong == old(mStrong) - INITIAL_STRONG_VALUE
      ensures log == old(log).(unbiased := old(log).unbiased + 1)
    {
      var _ := FetchAddStrong(-INITIAL_STRONG_VALUE);
      log := log.(unbiased := log.unbiased + 1);
    }

    /** mWeak.fetch_add(1), the first step of every call that takes a reference. */
    method TakeWeak()
      modifies this`mWeak, this`log
      ensures mWeak == old(mWeak) + 1 && log == old(log).(taken := old(log).taken + 1)
    {
      var _ := FetchAddWeak(1);
      log := log.(taken := log.taken + 1);
    }

    // --------------------------------------------------------- the calls, by step

    method StepBegin(call: Call) returns (next: Pc)
      requires HasHandle(View().m, call)
      modifies this`sHeld, this`wHeld
      ensures Outcome(View().m, next) == Begin(old(View().m), call)
    {
      match call {
        case CallIncStrong(who) => next := IncAddWeak(who);
        case CallIncStrongRequireStrong => next := ReqAddWeak;
        case CallDecStrong =>
          sHeld := sHeld - 1;
          next := DecSub;
        case CallIncWeak(who) => next := WeakAdd(who);
        case CallDecWeak =>
          wHeld := wHeld - 1;
          next := WeakSub;
        case CallAttemptIncStrong => next := TryAddWeak;
        case CallAttemptIncWeak(who) => next := TryWeakLoad(who);
      }
    }

    /** incStrong, incStrongRequireStrong and incWeak. */
    method StepIncrement(p: Pc, ch: Choice) returns (next: Pc)
      requires p.IncAddWeak? || p.IncAddStrong? || p.IncUnbias? || p.IncFirstRef?
            || p.ReqAddWeak? || p.ReqAddStrong? || p.WeakAdd?
      modifies this`mStrong, this`mWeak, this`sHeld, this`wHeld, this`log
      ensures Outcome(View().m, next) == Act(old(View().m), p, ch)
    {
      next := Idle;
      match p {
        case IncAddWeak(who) =>
          TakeWeak();
          next := IncAddStrong(who);
        case IncAddStrong(who) =>
          var c := FetchAddStrong(1);
          if c != INITIAL_STRONG_VALUE { sHeld := sHeld + 1; } else { next := IncUnbias; }
        case IncUnbias =>
          SubtractBias();
          sHeld := sHeld + 1;
          next := IncFirstRef;
        case IncFirstRef =>
          log := log.(firstRefs := log.firstRefs + 1);
        case ReqAddWeak =>
          TakeWeak();
          next := ReqAddStrong;
        case ReqAddStrong =>
          var _ := FetchAddStrong(1);
          sHeld := sHeld + 1;
        case WeakAdd(_) =>
          TakeWeak();
          wHeld := wHeld + 1;
      }
    }

    /** decStrong: the decrement, onLastStrongRef, the test of the flags. */
    method StepDecStrong(p: Pc, ch: Choice) returns (next: Pc)
      requires p.DecSub? || p.DecLastStrong? || p.DecFlags?
      modifies this`mStrong, this`log
      ensures Outcome(View().m, next) == Act(old(View().m), p, ch)
    {
      match p {
        case DecSub =>
          var c := FetchAddStrong(-1);
          if c == 1 {
            log := log.(zeroStrong := log.zeroStrong + 1);
            next := DecLastStrong;
          } else {
            next := WeakSub;
          }
        case DecLastStrong =>
          log := log.(calls := log.calls.(lastRefs := log.calls.lastRefs + 1));
          next := DecFlags;
        case DecFlags =>
          next := if life == StrongLifetime then Destroy(FromDecStrong) else WeakSub;
      }
    }

    /** `delete` and ~RefBase. */
    method StepDestructor(p: Pc, ch: Choice) returns (next: Pc)
      requires p.Destroy? || p.DtorFlags? || p.DtorStrong? || p.DtorWeak? || p.DtorFreeBlock? || p.DtorEnd?
      modifies this`storage, this`block, this`log
      ensures Outcome(View().m, next) == Act(old(View().m), p, ch)
    {
      next := DtorEnd(p.via);
      match p {
        case Destroy(via) =>
          storage := Destructing;
          log := log.(dtors := log.dtors + 1);
          next := DtorFlags(via);
        case DtorFlags(via) =>
          next := if life == WeakLifetime then DtorWeak(via) else DtorStrong(via);
        case DtorStrong(_) =>
        case DtorWeak(via) =>
          if mWeak == 0 { next := DtorFreeBlock(via); }
        case DtorFreeBlock(_) =>
          FreeControlBlock();
        case DtorEnd(via) =>
          storage := Freed;
          next := if via == FromDecStrong then WeakSub else Idle;
      }
    }

    /** decWeak. */
    method StepDecWeak(p: Pc, ch: Choice) returns (next: Pc)
      requires p.WeakSub? || p.WeakFlags? || p.WeakStrongLoad? || p.WeakFreeBlock? || p.WeakLast?
      modifies this`mWeak, this`block, this`log
      ensures Outcome(View().m, next) == Act(old(View().m), p, ch)
    {
      next := Idle;
      match p {
        case WeakSub =>
          var c := FetchAddWeak(-1);
          if c == 1 {
            log := log.(zeroWeak := log.zeroWeak + 1);
            next := WeakFlags;
          }
        case WeakFlags =>
          next := if life == StrongLifetime then WeakStrongLoad else WeakLast;
        case WeakStrongLoad =>
          if mStrong != INITIAL_STRONG_VALUE { next := WeakFreeBlock; }
        case WeakFreeBlock =>
          FreeControlBlock();
        case WeakLast =>
          next := Destroy(FromDecWeak);
      }
    }

    /** attemptIncStrong, up to and including its first loop. */
    method StepPromote(p: Pc, ch: Choice) returns (next: Pc)
      requires p.TryAddWeak? || p.TryLoad? || p.TryCas? || p.TryFlags?
      modifies this`mStrong, this`mWeak, this`sHeld, this`log
      ensures Outcome(View().m, next) == Act(old(View().m), p, ch)
    {
      next := Idle;
      match p {
        case TryAddWeak =>
          TakeWeak();
          next := TryLoad;
        case TryLoad =>
          next := FirstLoop(mStrong);
        case TryCas(cur) =>
          var ok, seen := CompareExchangeStrong(cur, cur + 1, ch.spurious);
          if ok {
            sHeld := sHeld + 1;
            log := log.(promoted := log.promoted + 1);
          } else {
            next := FirstLoop(seen);
          }
        case TryFlags(cur) =>
          next := if life == WeakLifetime then TryAsk
                  else if cur <= 0 then WeakSub
                  else TryFirstCas(cur);
      }
    }

    /** attemptIncStrong, the loop for an object that was never strongly referenced. */
    method StepPromoteFirst(p: Pc, ch: Choice) returns (next: Pc)
      requires p.TryFirstCas?
      modifies this`mStrong, this`sHeld, this`log
      ensures Outcome(View().m, next) == Act(old(View().m), p, ch)
    {
      var ok, seen := CompareExchangeStrong(p.cur, p.cur + 1, ch.spurious);
      if !ok {
        next := SecondLoop(seen);
      } else {
        log := log.(promoted := log.promoted + 1);
        if p.cur == INITIAL_STRONG_VALUE {
          next := TryUnbias;
        } else {
          sHeld := sHeld + 1;
          next := Idle;
        }
      }
    }

    /** attemptIncStrong with weak lifetime: the object is asked. */
    method StepAsk(ch: Choice) returns (next: Pc)
      modifies this`log
      ensures Outcome(View().m, next) == Act(old(View().m), TryAsk, ch)
    {
      if ch.agree {
        log := log.(calls := log.calls.(agreed := log.calls.agreed + 1));
        next := TryAdd;
      } else {
        log := log.(calls := log.calls.(refused := log.calls.refused + 1));
        next := WeakSub;
      }
    }

    /** An unneeded reference given back, and the removal of the bias. */
    method StepRevive(p: Pc, ch: Choice) returns (next: Pc)
      requires p.TryLastStrong? || p.TryUnbias?
      modifies this`mStrong, this`sHeld, this`log
      ensures Outcome(View().m, next) == Act(old(View().m), p, ch)
    {
      next := Idle;
      match p {
        case TryLastStrong =>
          log := log.(calls := log.calls.(lastRefs := log.calls.lastRefs + 1));
          sHeld := sHeld + 1;
        case TryUnbias =>
          log := log.(calls := log.calls.(silent := log.calls.silent + 1));
          SubtractBias();
          sHeld := sHeld + 1;
      }
    }

    method StepTryAdd(ch: Choice) returns (next: Pc)
      modifies this`mStrong, this`sHeld, this`log
      ensures Outcome(View().m, next) == Act(old(View().m), TryAdd, ch)
    {
      next := Idle;
      var c := FetchAddStrong(1);
      log := log.(promoted := log.promoted + 1, calls := log.calls.(revived := log.calls.revived + 1));
      if c == 0 {
        sHeld := sHeld + 1;
      } else if c == INITIAL_STRONG_VALUE {
        next := TryUnbias;
      } else {
        log := log.(calls := log.calls.(beaten := log.calls.beaten + 1));
        next := TryLastStrong;
      }
    }

    /** attemptIncWeak. */
    method StepAttemptIncWeak(p: Pc, ch: Choice) returns (next: Pc)
      requires p.TryWeakLoad? || p.TryWeakCas?
      modifies this`mWeak, this`wHeld, this`log
      ensures Outcome(View().m, next) == Act(old(View().m), p, ch)
    {
      if p.TryWeakCas? && mWeak == p.cur && !ch.spurious {
        TakeWeak();
        wHeld := wHeld + 1;
        next := Idle;
      } else {
        next := if mWeak > 0 then TryWeakCas(p.who, mWeak) else Idle;
      }
    }

    /** Thread `i` takes one step. */
    method Advance(i: nat, ch: Choice)
      requires Enabled(View(), i, ch)
      modifies this
      ensures View() == Step(old(View()), i, ch)
    {
      var p := threads[i];
      var next: Pc;
      match p {
        case Idle => next := StepBegin(ch.call);
        case IncAddWeak(_) => next := StepIncrement(p, ch);
        case IncAddStrong(_) => next := StepIncrement(p, ch);
        case IncUnbias => next := StepIncrement(p, ch);
        case IncFirstRef => next := StepIncrement(p, ch);
        case ReqAddWeak => next := StepIncrement(p, ch);
        case ReqAddStrong => next := StepIncrement(p, ch);
        case WeakAdd(_) => next := StepIncrement(p, ch);
        case DecSub => next := StepDecStrong(p, ch);
        case DecLastStrong => next := StepDecStrong(p, ch);
        case DecFlags => next := StepDecStrong(p, ch);
        case Destroy(_) => next := StepDestructor(p, ch);
        case DtorFlags(_) => next := StepDestructor(p, ch);
        case DtorStrong(_) => next := StepDestructor(p, ch);
        case DtorWeak(_) => next := StepDestructor(p, ch);
        case DtorFreeBlock(_) => next := StepDestructor(p, ch);
        case DtorEnd(_) => next := StepDestructor(p, ch);
        case WeakSub => next := StepDecWeak(p, ch);
        case WeakFlags => next := StepDecWeak(p, ch);
        case WeakStrongLoad => next := StepDecWeak(p, ch);
        case WeakFreeBlock => next := StepDecWeak(p, ch);
        case WeakLast => next := StepDecWeak(p, ch);
        case TryAddWeak => next := StepPromote(p, ch);
        case TryLoad => next := StepPromote(p, ch);
        case TryCas(_) => next := StepPromote(p, ch);
        case TryFlags(_) => next := StepPromote(p, ch);
        case TryFirstCas(_) => next := StepPromoteFirst(p, ch);
        case TryAsk => next := StepAsk(ch);
        case TryAdd => next := StepTryAdd(ch);
        case TryLastStrong => next := StepRevive(p, ch);
        case TryUnbias => next := StepRevive(p, ch);
        case TryWeakLoad(_) => next := StepAttemptIncWeak(p, ch);
        case TryWeakCas(_, _) => next := StepAttemptIncWeak(p, ch);
      }
      threads := threads[i := next];
    }

    /** Any schedule, from any good state: the entries that the callers'
        contract allows are carried out, the others skipped. */
    method RunSchedule(schedule: seq<(nat, Choice)>)
      requires Inv(View())
      modifies this
      ensures Inv(View()) && |threads| == |old(threads)|
    {
      for n := 0 to |schedule|
        invariant Inv(View()) && |threads| == |old(threads)|
      {
        var (i, ch) := schedule[n];
        if i < |threads| && Allowed(i, ch) {
          StepInv(View(), i, ch);
          Advance(i, ch);
        }
      }
    }

    predicate Allowed(i: nat, ch: Choice)
      reads this
      ensures Allowed(i, ch) ==> Enabled(View(), i, ch)
    {
      Enabled(State(Shared(life, mStrong, mWeak, storage, block, sHeld, wHeld, log), threads), i, ch)
    }
  }
}
