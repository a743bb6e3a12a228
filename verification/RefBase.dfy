/** The reference-count protocol of libutils' RefBase.

    One object, one control block (`weakref_impl`), and any number of threads
    calling incStrong, decStrong, incWeak, decWeak, attemptIncStrong and
    attemptIncWeak on it.  Every atomic load, fetch_add, fetch_sub,
    compare_exchange, virtual callback, `delete` and free is one step, and the
    threads' steps interleave freely.  Memory is sequentially consistent.

    `strong` and `weak` are mStrong and mWeak.  `sHeld` and `wHeld` count the
    references that callers hold between calls; a call in flight accounts for
    the references it has already taken in its program counter. */
module RefBase {

  const INITIAL_STRONG_VALUE: int := 0x1000_0000
  const MAX_COUNT: int := 0xf_ffff

  /** BAD_STRONG: zero, or any bit outside MAX_COUNT | INITIAL_STRONG_VALUE. */
  predicate BadStrong(c: int) {
    c <= 0 || c / INITIAL_STRONG_VALUE > 1 || c % INITIAL_STRONG_VALUE > MAX_COUNT
  }

  /** BAD_WEAK: zero, or any bit outside MAX_COUNT. */
  predicate BadWeak(c: int) {
    c <= 0 || c > MAX_COUNT
  }

  /** OBJECT_LIFETIME_STRONG or OBJECT_LIFETIME_WEAK, fixed before the first call. */
  datatype Lifetime = StrongLifetime | WeakLifetime

  /** Storage of the object itself: alive, inside its destructor, or released. */
  datatype Storage = Live | Destructing | Freed

  /** What entitles a caller to touch the object: a strong reference held
      throughout the call, a weak one, or being alone with an object on which
      nobody else holds a reference yet. */
  datatype Caller = ByStrong | ByWeak | Alone

  /** Which decrement runs the destructor. */
  datatype Via = FromDecStrong | FromDecWeak

  /** The next step of a thread. */
  datatype Pc =
    | Idle
    // incStrong
    | IncAddWeak(who: Caller)
    | IncAddStrong(who: Caller)
    | IncUnbias
    | IncFirstRef
    // incStrongRequireStrong
    | ReqAddWeak
    | ReqAddStrong
    // decStrong
    | DecSub
    | DecLastStrong
    | DecFlags
    // delete, ~RefBase
    | Destroy(via: Via)
    | DtorFlags(via: Via)
    | DtorStrong(via: Via)
    | DtorWeak(via: Via)
    | DtorFreeBlock(via: Via)
    | DtorEnd(via: Via)
    // incWeak, createWeak
    | WeakAdd(who: Caller)
    // decWeak
    | WeakSub
    | WeakFlags
    | WeakStrongLoad
    | WeakFreeBlock
    | WeakLast
    // attemptIncStrong
    | TryAddWeak
    | TryLoad
    | TryCas(cur: int)
    | TryFlags(cur: int)
    | TryFirstCas(cur: int)
    | TryAsk
    | TryAdd
    | TryLastStrong
    | TryUnbias
    // attemptIncWeak
    | TryWeakLoad(who: Caller)
    | TryWeakCas(who: Caller, cur: int)

  /** Calls of the virtual callbacks, and what came of them. */
  datatype Callbacks = Callbacks(
    lastRefs: nat,     // calls of onLastStrongRef
    agreed: nat,       // answers of onIncStrongAttempted
    refused: nat,
    revived: nat,      // strong references taken on such an answer
    beaten: nat,       // and how many of them were unneeded: another one existed
    silent: nat)       // first strong references by attemptIncStrong: no onFirstRef

  const NO_CALLBACKS := Callbacks(0, 0, 0, 0, 0, 0)

  /** Running totals of the events the properties speak about. */
  datatype History = History(
    taken: nat,        // increments of the weak count
    zeroStrong: nat,   // decrements that took the strong count from 1 to 0
    zeroWeak: nat,     // decrements that took the weak count from 1 to 0
    unbiased: nat,     // subtractions of INITIAL_STRONG_VALUE
    firstRefs: nat,    // calls of onFirstRef
    dtors: nat,        // destructor runs begun
    frees: nat,        // control blocks freed
    promoted: nat,     // attemptIncStrong calls that committed to returning true
    calls: Callbacks)

  const NO_HISTORY := History(0, 0, 0, 0, 0, 0, 0, 0, NO_CALLBACKS)

  /** The object, its control block, the references held between calls. */
  datatype Shared = Shared(
    life: Lifetime,
    strong: int,
    weak: int,
    storage: Storage,
    block: bool,
    sHeld: nat,
    wHeld: nat,
    log: History)

  datatype State = State(m: Shared, threads: seq<Pc>)

  /** The calls a thread may begin. */
  datatype Call =
    | CallIncStrong(who: Caller)
    | CallIncStrongRequireStrong
    | CallDecStrong
    | CallIncWeak(who: Caller)
    | CallDecWeak
    | CallAttemptIncStrong
    | CallAttemptIncWeak(who: Caller)

  /** What the environment decides in a step: the call an idle thread begins,
      whether compare_exchange_weak fails spuriously, and the answer of
      onIncStrongAttempted. */
  datatype Choice = Choice(call: Call, spurious: bool, agree: bool)

  predicate PinsStrong(p: Pc) {
    match p
    case IncAddWeak(who) => who == ByStrong
    case IncAddStrong(who) => who == ByStrong
    case IncFirstRef => true
    case ReqAddWeak => true
    case ReqAddStrong => true
    case WeakAdd(who) => who == ByStrong
    case TryWeakLoad(who) => who == ByStrong
    case TryWeakCas(who, _) => who == ByStrong
    case _ => false
  }

  predicate PinsWeak(p: Pc) {
    match p
    case IncAddWeak(who) => who == ByWeak
    case IncAddStrong(who) => who == ByWeak
    case WeakAdd(who) => who == ByWeak
    case TryAddWeak => true
    case TryWeakLoad(who) => who == ByWeak
    case TryWeakCas(who, _) => who == ByWeak
    case _ => false
  }

  /** In a call begun alone, before it has made its reference. */
  predicate First(p: Pc) {
    match p
    case IncAddWeak(who) => who == Alone
    case IncAddStrong(who) => who == Alone
    case WeakAdd(who) => who == Alone
    case TryWeakLoad(who) => who == Alone
    case TryWeakCas(who, _) => who == Alone
    case _ => false
  }

  /** The object has never been strongly referenced and nobody is in a call; the
      weak references that exist, if any, are the caller's own. */
  predicate NobodyElse(s: State) {
    && s.m.sHeld == 0 && s.m.strong == INITIAL_STRONG_VALUE && s.m.storage == Live
    && forall j :: 0 <= j < |s.threads| ==> s.threads[j] == Idle
  }

  predicate Entitled(s: State, who: Caller) {
    match who
    case ByStrong => s.m.sHeld > 0
    case ByWeak => s.m.wHeld > 0
    case Alone => NobodyElse(s)
  }

  /** The contract of the callers.  incStrong needs what keeps the object alive: a
      strong reference that outlasts the call, a weak one if the object lives as
      long as that, or nobody else around; attemptIncStrong needs a weak
      reference; a reference that a call in flight relies on is not the one
      given up; and nobody uses a reference while a call begun alone has yet to
      make its own. */
  predicate MayBegin(s: State, call: Call) {
    && (forall j :: 0 <= j < |s.threads| ==> !First(s.threads[j]))
    && match call
    case CallIncStrong(who) => Entitled(s, who) && (who == ByWeak ==> s.m.life == WeakLifetime)
    case CallIncStrongRequireStrong => s.m.sHeld > 0
    case CallDecStrong =>
      && s.m.sHeld > 0
      && (s.m.sHeld > 1 || forall j :: 0 <= j < |s.threads| ==> !PinsStrong(s.threads[j]))
    case CallIncWeak(who) => Entitled(s, who)
    case CallDecWeak =>
      && s.m.wHeld > 0
      && (s.m.wHeld > 1 || forall j :: 0 <= j < |s.threads| ==> !PinsWeak(s.threads[j]))
    case CallAttemptIncStrong => s.m.wHeld > 0
    case CallAttemptIncWeak(who) => Entitled(s, who)
  }

  predicate AddsWeak(p: Pc) {
    p.IncAddWeak? || p.ReqAddWeak? || p.WeakAdd? || p.TryAddWeak? || p.TryWeakCas?
  }

  /** Callers never take more than MAX_COUNT references in all. */
  predicate Enabled(s: State, i: nat, ch: Choice) {
    && i < |s.threads|
    && (s.threads[i] == Idle ==> MayBegin(s, ch.call))
    && (AddsWeak(s.threads[i]) ==> s.m.weak < MAX_COUNT)
  }

  // ---------------------------------------------------------------- the steps

  /** The shared state after a step, and the thread's next step. */
  datatype Outcome = Outcome(m: Shared, p: Pc)

  predicate HasHandle(m: Shared, call: Call) {
    && (call == CallDecStrong ==> m.sHeld > 0)
    && (call == CallDecWeak ==> m.wHeld > 0)
  }

  function Begin(m: Shared, call: Call): Outcome
    requires HasHandle(m, call)
  {
    match call
    case CallIncStrong(who) => Outcome(m, IncAddWeak(who))
    case CallIncStrongRequireStrong => Outcome(m, ReqAddWeak)
    case CallDecStrong => Outcome(m.(sHeld := m.sHeld - 1), DecSub)
    case CallIncWeak(who) => Outcome(m, WeakAdd(who))
    case CallDecWeak => Outcome(m.(wHeld := m.wHeld - 1), WeakSub)
    case CallAttemptIncStrong => Outcome(m, TryAddWeak)
    case CallAttemptIncWeak(who) => Outcome(m, TryWeakLoad(who))
  }

  function AddWeak(m: Shared): Shared {
    m.(weak := m.weak + 1, log := m.log.(taken := m.log.taken + 1))
  }

  function Unbias(m: Shared): Shared {
    m.(strong := m.strong - INITIAL_STRONG_VALUE, log := m.log.(unbiased := m.log.unbiased + 1))
  }

  function KeepStrong(m: Shared): Shared {
    m.(sHeld := m.sHeld + 1)
  }

  function KeepWeak(m: Shared): Shared {
    m.(wHeld := m.wHeld + 1)
  }

  function Promoted(m: Shared): Shared {
    m.(log := m.log.(promoted := m.log.promoted + 1))
  }

  function LastRef(m: Shared): Shared {
    m.(log := m.log.(calls := m.log.calls.(lastRefs := m.log.calls.lastRefs + 1)))
  }

  function Agreed(m: Shared): Shared {
    m.(log := m.log.(calls := m.log.calls.(agreed := m.log.calls.agreed + 1)))
  }

  function Refused(m: Shared): Shared {
    m.(log := m.log.(calls := m.log.calls.(refused := m.log.calls.refused + 1)))
  }

  function Revived(m: Shared): Shared {
    m.(log := m.log.(calls := m.log.calls.(revived := m.log.calls.revived + 1)))
  }

  function Beaten(m: Shared): Shared {
    m.(log := m.log.(calls := m.log.calls.(beaten := m.log.calls.beaten + 1)))
  }

  function Silent(m: Shared): Shared {
    m.(log := m.log.(calls := m.log.calls.(silent := m.log.calls.silent + 1)))
  }

  function FreeBlock(m: Shared): Shared {
    m.(block := false, log := m.log.(frees := m.log.frees + 1))
  }

  /** The next step of attemptIncStrong after it sees `cur` in its first loop. */
  function FirstLoop(cur: int): Pc {
    if cur > 0 && cur != INITIAL_STRONG_VALUE then TryCas(cur) else TryFlags(cur)
  }

  /** The next step after it sees `cur` in the never-strong loop. */
  function SecondLoop(cur: int): Pc {
    if cur > 0 then TryFirstCas(cur) else WeakSub
  }

  /** One step of a thread that is at `p`. */
  function Act(m: Shared, p: Pc, ch: Choice): Outcome
    requires p == Idle ==> HasHandle(m, ch.call)
  {
    match p
    case Idle => Begin(m, ch.call)

    case IncAddWeak(who) => Outcome(AddWeak(m), IncAddStrong(who))
    case IncAddStrong(who) =>
      var m' := m.(strong := m.strong + 1);
      if m.strong != INITIAL_STRONG_VALUE then Outcome(KeepStrong(m'), Idle) else Outcome(m', IncUnbias)
    case IncUnbias => Outcome(KeepStrong(Unbias(m)), IncFirstRef)
    case IncFirstRef => Outcome(m.(log := m.log.(firstRefs := m.log.firstRefs + 1)), Idle)

    case ReqAddWeak => Outcome(AddWeak(m), ReqAddStrong)
    case ReqAddStrong => Outcome(KeepStrong(m.(strong := m.strong + 1)), Idle)

    case DecSub =>
      var m' := m.(strong := m.strong - 1);
      if m.strong == 1
      then Outcome(m'.(log := m.log.(zeroStrong := m.log.zeroStrong + 1)), DecLastStrong)
      else Outcome(m', WeakSub)
    case DecLastStrong => Outcome(LastRef(m), DecFlags)
    case DecFlags => Outcome(m, if m.life == StrongLifetime then Destroy(FromDecStrong) else WeakSub)

    case Destroy(via) =>
      Outcome(m.(storage := Destructing, log := m.log.(dtors := m.log.dtors + 1)), DtorFlags(via))
    case DtorFlags(via) => Outcome(m, if m.life == WeakLifetime then DtorWeak(via) else DtorStrong(via))
    case DtorStrong(via) => Outcome(m, DtorEnd(via))
    case DtorWeak(via) => Outcome(m, if m.weak == 0 then DtorFreeBlock(via) else DtorEnd(via))
    case DtorFreeBlock(via) => Outcome(FreeBlock(m), DtorEnd(via))
    case DtorEnd(via) => Outcome(m.(storage := Freed), if via == FromDecStrong then WeakSub else Idle)

    case WeakAdd(_) => Outcome(KeepWeak(AddWeak(m)), Idle)

    case WeakSub =>
      var m' := m.(weak := m.weak - 1);
      if m.weak != 1 then Outcome(m', Idle)
      else Outcome(m'.(log := m.log.(zeroWeak := m.log.zeroWeak + 1)), WeakFlags)
    case WeakFlags => Outcome(m, if m.life == StrongLifetime then WeakStrongLoad else WeakLast)
    case WeakStrongLoad => Outcome(m, if m.strong == INITIAL_STRONG_VALUE then Idle else WeakFreeBlock)
    case WeakFreeBlock => Outcome(FreeBlock(m), Idle)
    case WeakLast => Outcome(m, Destroy(FromDecWeak))

    case TryAddWeak => Outcome(AddWeak(m), TryLoad)
    case TryLoad => Outcome(m, FirstLoop(m.strong))
    case TryCas(cur) =>
      if m.strong == cur && !ch.spurious
      then Outcome(Promoted(KeepStrong(m.(strong := cur + 1))), Idle)
      else Outcome(m, FirstLoop(m.strong))
    case TryFlags(cur) =>
      Outcome(m, if m.life == WeakLifetime then TryAsk
                 else if cur <= 0 then WeakSub
                 else TryFirstCas(cur))
    case TryFirstCas(cur) =>
      if m.strong == cur && !ch.spurious then
        var m' := Promoted(m.(strong := cur + 1));
        if cur == INITIAL_STRONG_VALUE then Outcome(m', TryUnbias) else Outcome(KeepStrong(m'), Idle)
      else Outcome(m, SecondLoop(m.strong))
    case TryAsk => if ch.agree then Outcome(Agreed(m), TryAdd) else Outcome(Refused(m), WeakSub)
    case TryAdd =>
      var m' := Revived(Promoted(m.(strong := m.strong + 1)));
      if m.strong == 0 then Outcome(KeepStrong(m'), Idle)
      else if m.strong == INITIAL_STRONG_VALUE then Outcome(m', TryUnbias)
      else Outcome(Beaten(m'), TryLastStrong)
    case TryLastStrong => Outcome(KeepStrong(LastRef(m)), Idle)
    case TryUnbias => Outcome(KeepStrong(Unbias(Silent(m))), Idle)

    case TryWeakLoad(who) => Outcome(m, if m.weak > 0 then TryWeakCas(who, m.weak) else Idle)
    case TryWeakCas(who, cur) =>
      if m.weak == cur && !ch.spurious
      then Outcome(KeepWeak(AddWeak(m)), Idle)
      else Outcome(m, if m.weak > 0 then TryWeakCas(who, m.weak) else Idle)
  }

  /** One step of thread `i`. */
  function Step(s: State, i: nat, ch: Choice): State
    requires Enabled(s, i, ch)
  {
    var o := Act(s.m, s.threads[i], ch);
    State(o.m, s.threads[i := o.p])
  }

  /** A new object: no references, no calls in flight. */
  predicate Init(s: State) {
    && s.m.strong == INITIAL_STRONG_VALUE && s.m.weak == 0
    && s.m.storage == Live && s.m.block
    && s.m.sHeld == 0 && s.m.wHeld == 0
    && (forall j :: 0 <= j < |s.threads| ==> s.threads[j] == Idle)
    && s.m.log == NO_HISTORY
  }

  ghost predicate Next(s: State, s': State) {
    exists i: nat, ch: Choice :: Enabled(s, i, ch) && s' == Step(s, i, ch)
  }

  /** A finite run: it starts in a new object and every two neighbours are a step. */
  ghost predicate IsRun(run: seq<State>) {
    && |run| > 0 && Init(run[0])
    && forall k :: 0 <= k < |run| - 1 ==> Next(run[k], run[k + 1])
  }
}
