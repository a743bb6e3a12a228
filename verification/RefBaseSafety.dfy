/** What every interleaving of RefBase calls keeps, and what follows for whole runs. */
module RefBaseSafety {
  import opened RefBase

  // ------------------------------------------------- what a call in flight holds

  /** The share of one thread in each total the invariant speaks about. */
  datatype Tally = Tally(
    w: nat,      // units of the weak count
    s: nat,      // units of the strong count
    fix: nat,    // subtractions of INITIAL_STRONG_VALUE still owed
    first: nat,  // calls of onFirstRef still owed
    del: nat,    // destructor runs owed by decStrong
    fin: nat,    // destructor runs owed by decWeak
    clean: nat,  // took the weak count to zero, control block not yet freed
    dtor: nat)   // inside the destructor

  const Zero := Tally(0, 0, 0, 0, 0, 0, 0, 0)

  function Plus(a: Tally, b: Tally): Tally {
    Tally(a.w + b.w, a.s + b.s, a.fix + b.fix, a.first + b.first,
          a.del + b.del, a.fin + b.fin, a.clean + b.clean, a.dtor + b.dtor)
  }

  predicate AtMost(a: Tally, b: Tally) {
    && a.w <= b.w && a.s <= b.s && a.fix <= b.fix && a.first <= b.first
    && a.del <= b.del && a.fin <= b.fin && a.clean <= b.clean && a.dtor <= b.dtor
  }

  function Weight(p: Pc): Tally {
    match p
    case IncAddStrong(_) => Zero.(w := 1)
    case IncUnbias => Zero.(w := 1, s := 1, fix := 1)
    case IncFirstRef => Zero.(first := 1)
    case ReqAddStrong => Zero.(w := 1)
    case DecSub => Zero.(w := 1, s := 1)
    case DecLastStrong => Zero.(w := 1, del := 1)
    case DecFlags => Zero.(w := 1, del := 1)
    case Destroy(via) => if via == FromDecStrong then Zero.(w := 1, del := 1) else Zero.(fin := 1, clean := 1)
    case DtorFlags(via) => if via == FromDecStrong then Zero.(w := 1, dtor := 1) else Zero.(clean := 1, dtor := 1)
    case DtorStrong(via) => if via == FromDecStrong then Zero.(w := 1, dtor := 1) else Zero.(clean := 1, dtor := 1)
    case DtorWeak(via) => if via == FromDecStrong then Zero.(w := 1, dtor := 1) else Zero.(clean := 1, dtor := 1)
    case DtorFreeBlock(via) => if via == FromDecStrong then Zero.(w := 1, dtor := 1) else Zero.(clean := 1, dtor := 1)
    case DtorEnd(via) => if via == FromDecStrong then Zero.(w := 1, dtor := 1) else Zero.(dtor := 1)
    case WeakSub => Zero.(w := 1)
    case WeakFlags => Zero.(fin := 1, clean := 1)
    case WeakStrongLoad => Zero.(clean := 1)
    case WeakFreeBlock => Zero.(clean := 1)
    case WeakLast => Zero.(fin := 1, clean := 1)
    case TryLoad => Zero.(w := 1)
    case TryCas(_) => Zero.(w := 1)
    case TryFlags(_) => Zero.(w := 1)
    case TryFirstCas(_) => Zero.(w := 1)
    case TryAsk => Zero.(w := 1)
    case TryAdd => Zero.(w := 1)
    case TryLastStrong => Zero.(w := 1, s := 1)
    case TryUnbias => Zero.(w := 1, s := 1, fix := 1)
    case _ => Zero
  }

  function Total(ts: seq<Pc>): Tally {
    if |ts| == 0 then Zero else Plus(Weight(ts[0]), Total(ts[1..]))
  }

  /** Field by field, `a` and `b` come to what `c` and `d` come to. */
  predicate Balanced(a: Tally, b: Tally, c: Tally, d: Tally) {
    && a.w + b.w == c.w + d.w && a.s + b.s == c.s + d.s
    && a.fix + b.fix == c.fix + d.fix && a.first + b.first == c.first + d.first
    && a.del + b.del == c.del + d.del && a.fin + b.fin == c.fin + d.fin
    && a.clean + b.clean == c.clean + d.clean && a.dtor + b.dtor == c.dtor + d.dtor
  }

  lemma {:induction false} TotalUpdate(ts: seq<Pc>, i: nat, p: Pc)
    requires i < |ts|
    ensures Balanced(Total(ts[i := p]), Weight(ts[i]), Total(ts), Weight(p))
  {
    hide Weight, Plus, Balanced;
    if i == 0 {
      assert ts[i := p][1..] == ts[1..];
      PlusRotates(Weight(p), Total(ts[1..]), Weight(ts[0]));
    } else {
      var rest := ts[1..][i - 1 := p];
      assert ts[i := p][1..] == rest;
      TotalUpdate(ts[1..], i - 1, p);
      PlusInside(Weight(ts[0]), Total(rest), Weight(ts[i]), Total(ts[1..]), Weight(p));
    }
  }

  lemma PlusRotates(a: Tally, b: Tally, c: Tally)
    ensures Balanced(Plus(a, b), c, Plus(c, b), a)
  {
  }

  lemma PlusInside(a: Tally, b: Tally, c: Tally, d: Tally, e: Tally)
    requires Balanced(b, c, d, e)
    ensures Balanced(Plus(a, b), c, Plus(a, d), e)
  {
  }

  lemma {:induction false} TotalCovers(ts: seq<Pc>, i: nat)
    requires i < |ts|
    ensures AtMost(Weight(ts[i]), Total(ts))
  {
    hide Weight;
    if i > 0 { TotalCovers(ts[1..], i - 1); }
  }

  lemma {:induction false} TotalCoversTwo(ts: seq<Pc>, i: nat, j: nat)
    requires i < |ts| && j < |ts| && i != j
    ensures AtMost(Plus(Weight(ts[i]), Weight(ts[j])), Total(ts))
  {
    hide Weight;
    if i == 0 {
      TotalCovers(ts[1..], j - 1);
    } else if j == 0 {
      TotalCovers(ts[1..], i - 1);
    } else {
      TotalCoversTwo(ts[1..], i - 1, j - 1);
    }
  }

  /** Every strong unit comes with a weak unit, every debt of the bias with a strong one. */
  lemma {:induction false} TotalOrder(ts: seq<Pc>)
    ensures Total(ts).fix <= Total(ts).s <= Total(ts).w
  {
    if |ts| > 0 { TotalOrder(ts[1..]); }
  }

  lemma {:induction false} TotalIdle(ts: seq<Pc>)
    requires forall j :: 0 <= j < |ts| ==> ts[j] == Idle
    ensures Total(ts) == Zero
  {
    if |ts| > 0 { TotalIdle(ts[1..]); }
  }

  lemma IdleWeight()
    ensures Weight(Idle) == Zero
  {
  }

  lemma {:induction false} TotalSingle(ts: seq<Pc>, i: nat)
    requires i < |ts| && forall j :: 0 <= j < |ts| && j != i ==> ts[j] == Idle
    ensures Total(ts) == Weight(ts[i])
  {
    hide Weight;
    if i == 0 {
      TotalIdle(ts[1..]);
    } else {
      assert Weight(ts[0]) == Zero by { IdleWeight(); }
      TotalSingle(ts[1..], i - 1);
    }
  }

  // ------------------------------------------------------------- the invariant

  /** In decWeak, or the destructor it runs, after taking the weak count to zero. */
  predicate Cleaner(p: Pc) {
    match p
    case WeakFlags => true
    case WeakStrongLoad => true
    case WeakFreeBlock => true
    case WeakLast => true
    case Destroy(via) => via == FromDecWeak
    case DtorFlags(via) => via == FromDecWeak
    case DtorStrong(via) => via == FromDecWeak
    case DtorWeak(via) => via == FromDecWeak
    case DtorFreeBlock(via) => via == FromDecWeak
    case DtorEnd(via) => via == FromDecWeak
    case _ => false
  }

  predicate OthersIdle(ts: seq<Pc>, i: nat) {
    forall j :: 0 <= j < |ts| && j != i ==> ts[j] == Idle
  }

  /** What a thread's local value and branch say about the lifetime mode. */
  predicate Local(life: Lifetime, p: Pc) {
    match p
    case IncAddWeak(who) => who == ByWeak ==> life == WeakLifetime
    case IncAddStrong(who) => who == ByWeak ==> life == WeakLifetime
    case Destroy(via) => (via == FromDecStrong) == (life == StrongLifetime)
    case DtorFlags(via) => (via == FromDecStrong) == (life == StrongLifetime)
    case DtorStrong(via) => via == FromDecStrong && life == StrongLifetime
    case DtorWeak(via) => via == FromDecWeak && life == WeakLifetime
    case DtorFreeBlock(via) => via == FromDecWeak && life == WeakLifetime
    case DtorEnd(via) => (via == FromDecStrong) == (life == StrongLifetime)
    case WeakStrongLoad => life == StrongLifetime
    case WeakFreeBlock => life == StrongLifetime
    case WeakLast => life == WeakLifetime
    case TryCas(cur) => cur > 0 && cur != INITIAL_STRONG_VALUE
    case TryFlags(cur) => cur <= 0 || cur == INITIAL_STRONG_VALUE
    case TryFirstCas(cur) => cur > 0 && life == StrongLifetime
    case TryAsk => life == WeakLifetime
    case TryAdd => life == WeakLifetime
    case TryLastStrong => life == WeakLifetime
    case TryWeakCas(_, cur) => cur > 0
    case _ => true
  }

  function Base(m: Shared): int {
    if m.log.unbiased == 0 then INITIAL_STRONG_VALUE else 0
  }

  /** The two counts are exactly the references held and in flight. */
  predicate Counts(m: Shared, t: Tally) {
    && m.weak == m.wHeld + m.sHeld + t.w
    && m.weak <= MAX_COUNT
    && m.strong == Base(m) + m.sHeld + t.s
  }

  /** The bias is subtracted once, by the one thread that owes it. */
  predicate Bias(m: Shared, t: Tally) {
    && m.log.unbiased <= 1
    && t.fix <= 1
    && (t.fix == 1 ==> m.log.unbiased == 0)
    && (m.log.unbiased == 0 && t.fix == 0 ==> m.sHeld + t.s == 0)
    && m.log.firstRefs + t.first <= m.log.unbiased
    && (m.weak > 0 || m.log.unbiased > 0 ==> m.log.taken > 0)
  }

  predicate Storages(m: Shared, t: Tally) {
    && m.log.dtors == t.dtor + (if m.storage == Freed then 1 else 0)
    && m.log.dtors <= 1
    && (m.storage == Live <==> m.log.dtors == 0)
    && (m.life == StrongLifetime ==>
          && m.log.zeroStrong == m.log.dtors + t.del
          && m.log.zeroStrong <= 1
          && (m.log.zeroStrong == 1 <==> m.log.unbiased == 1 && m.strong == 0))
    && (m.life == WeakLifetime ==>
          && m.log.zeroWeak == m.log.dtors + t.fin
          && m.log.zeroWeak <= 1
          && (m.log.zeroWeak == 1 <==> m.log.taken > 0 && m.weak == 0))
  }

  /** The last weak reference is gone for good. */
  predicate Over(m: Shared) {
    m.weak == 0 && (if m.life == StrongLifetime then m.log.unbiased == 1 else m.log.taken > 0)
  }

  predicate Blocks(m: Shared, t: Tally) {
    && (m.block <==> m.log.frees == 0)
    && (if Over(m) then m.log.frees + t.clean == 1 else m.log.frees == 0)
    && (t.clean > 0 ==> t.clean == 1 && m.weak == 0)
    && (!m.block ==> if m.life == StrongLifetime then m.storage == Freed else m.storage != Live)
  }

  predicate Books(m: Shared, t: Tally) {
    Counts(m, t) && Bias(m, t) && Storages(m, t) && Blocks(m, t) && t.fix <= t.s <= t.w
  }

  /** What holds for a thread at `p`. */
  predicate Here(m: Shared, p: Pc) {
    && Local(m.life, p)
    && (PinsStrong(p) ==> m.sHeld > 0)
    && (PinsWeak(p) ==> m.wHeld > 0)
    && (First(p) || Cleaner(p) ==> m.sHeld == 0)
    && (Cleaner(p) ==> m.wHeld == 0)
    && (First(p) ==> m.storage == Live && m.log.unbiased == 0)
    && (Cleaner(p) ==> m.weak == 0)
    && (p == WeakFreeBlock ==> m.log.unbiased == 1)
    && (p.TryFlags? && p.cur <= 0 && m.life == StrongLifetime ==> m.log.zeroStrong == 1)
    && (!m.block ==> p == Idle || p == DtorEnd(FromDecWeak))
  }

  predicate Inv(s: State) {
    && Books(s.m, Total(s.threads))
    && (forall j :: 0 <= j < |s.threads| ==> Here(s.m, s.threads[j]))
    && (forall j :: 0 <= j < |s.threads| && (First(s.threads[j]) || Cleaner(s.threads[j])) ==>
          OthersIdle(s.threads, j))
  }

  lemma InitInv(s: State)
    requires Init(s)
    ensures Inv(s)
  {
    hide Books, Here, Weight, Total, First, Cleaner;
    TotalIdle(s.threads);
    InitBooks(s.m);
    forall j | 0 <= j < |s.threads|
      ensures Here(s.m, s.threads[j]) && !First(s.threads[j]) && !Cleaner(s.threads[j])
    {
      InitHere(s.m);
    }
  }

  lemma InitBooks(m: Shared)
    requires m.strong == INITIAL_STRONG_VALUE && m.weak == 0 && m.storage == Live && m.block
    requires m.sHeld == 0 && m.wHeld == 0 && m.log == NO_HISTORY
    ensures Books(m, Zero)
  {
  }

  lemma InitHere(m: Shared)
    requires m.block
    ensures Here(m, Idle) && !First(Idle) && !Cleaner(Idle)
  {
  }

  // ----------------------------------------------------------- one thread's step

  /** A thread in a call begun alone, or cleaning up, is all there is. */
  predicate Solo(t: Tally, p: Pc) {
    First(p) || Cleaner(p) ==> t == Weight(p)
  }

  /** What an idle thread knows of the others when it begins a call. */
  predicate Begins(m: Shared, t: Tally, call: Call) {
    && HasHandle(m, call)
    && (call.CallIncStrong? && call.who == ByWeak ==> m.life == WeakLifetime)
    && (call.CallIncStrong? || call.CallIncWeak? || call.CallAttemptIncWeak? ==>
          match call.who
          case ByStrong => m.sHeld > 0
          case ByWeak => m.wHeld > 0
          case Alone =>
            m.sHeld == 0 && m.strong == INITIAL_STRONG_VALUE && m.storage == Live && t == Zero)
    && (call.CallIncStrongRequireStrong? ==> m.sHeld > 0)
    && (call.CallAttemptIncStrong? ==> m.wHeld > 0)
  }

  predicate Ready(m: Shared, t: Tally, p: Pc, ch: Choice) {
    && Books(m, t) && Here(m, p) && Solo(t, p) && AtMost(Weight(p), t)
    && (p == Idle ==> Begins(m, t, ch.call))
    && (AddsWeak(p) ==> m.weak < MAX_COUNT)
  }

  predicate Moves(t: Tally, p: Pc, t': Tally, p': Pc) {
    Balanced(t', Weight(p), t, Weight(p'))
  }

  lemma BeginAddsBooks(m: Shared, t: Tally, p: Pc, ch: Choice, t': Tally)
    requires p == Idle && ch.call != CallDecStrong && ch.call != CallDecWeak
    requires Ready(m, t, p, ch) && Moves(t, p, t', Act(m, p, ch).p) && t'.fix <= t'.s <= t'.w
    ensures Books(Act(m, p, ch).m, t')
  {
  }

  lemma BeginDecStrongBooks(m: Shared, t: Tally, p: Pc, ch: Choice, t': Tally)
    requires p == Idle && ch.call == CallDecStrong
    requires Ready(m, t, p, ch) && Moves(t, p, t', Act(m, p, ch).p) && t'.fix <= t'.s <= t'.w
    ensures Books(Act(m, p, ch).m, t')
  {
  }

  lemma BeginDecWeakBooks(m: Shared, t: Tally, p: Pc, ch: Choice, t': Tally)
    requires p == Idle && ch.call == CallDecWeak
    requires Ready(m, t, p, ch) && Moves(t, p, t', Act(m, p, ch).p) && t'.fix <= t'.s <= t'.w
    ensures Books(Act(m, p, ch).m, t')
  {
  }

  lemma AddWeakBooks(m: Shared, t: Tally, p: Pc, ch: Choice, t': Tally)
    requires p.IncAddWeak? || p.ReqAddWeak? || p.WeakAdd? || p.TryAddWeak?
    requires Ready(m, t, p, ch) && Moves(t, p, t', Act(m, p, ch).p) && t'.fix <= t'.s <= t'.w
    ensures Books(Act(m, p, ch).m, t')
  {
  }

  lemma AddStrongBooks(m: Shared, t: Tally, p: Pc, ch: Choice, t': Tally)
    requires p.IncAddStrong? || p.ReqAddStrong?
    requires Ready(m, t, p, ch) && Moves(t, p, t', Act(m, p, ch).p) && t'.fix <= t'.s <= t'.w
    ensures Books(Act(m, p, ch).m, t')
  {
  }

  lemma UnbiasBooks(m: Shared, t: Tally, p: Pc, ch: Choice, t': Tally)
    requires p.IncUnbias? || p.IncFirstRef?
    requires Ready(m, t, p, ch) && Moves(t, p, t', Act(m, p, ch).p) && t'.fix <= t'.s <= t'.w
    ensures Books(Act(m, p, ch).m, t')
  {
  }

  lemma DecStrongBooks(m: Shared, t: Tally, p: Pc, ch: Choice, t': Tally)
    requires p.DecSub? || p.DecLastStrong? || p.DecFlags?
    requires Ready(m, t, p, ch) && Moves(t, p, t', Act(m, p, ch).p) && t'.fix <= t'.s <= t'.w
    ensures Books(Act(m, p, ch).m, t')
  {
  }

  lemma DestroyBooks(m: Shared, t: Tally, p: Pc, ch: Choice, t': Tally)
    requires p.Destroy? || p.DtorFlags? || p.DtorStrong?
    requires Ready(m, t, p, ch) && Moves(t, p, t', Act(m, p, ch).p) && t'.fix <= t'.s <= t'.w
    ensures Books(Act(m, p, ch).m, t')
  {
  }

  lemma DestructorEndBooks(m: Shared, t: Tally, p: Pc, ch: Choice, t': Tally)
    requires p.DtorWeak? || p.DtorFreeBlock? || p.DtorEnd?
    requires Ready(m, t, p, ch) && Moves(t, p, t', Act(m, p, ch).p) && t'.fix <= t'.s <= t'.w
    ensures Books(Act(m, p, ch).m, t')
  {
  }

  lemma DecWeakBooks(m: Shared, t: Tally, p: Pc, ch: Choice, t': Tally)
    requires p.WeakSub?
    requires Ready(m, t, p, ch) && Moves(t, p, t', Act(m, p, ch).p) && t'.fix <= t'.s <= t'.w
    ensures Books(Act(m, p, ch).m, t')
  {
  }

  lemma CleanUpBooksCount(m: Shared, t: Tally, p: Pc, ch: Choice, t': Tally)
    requires p.WeakFlags? || p.WeakStrongLoad? || p.WeakFreeBlock? || p.WeakLast?
    requires Ready(m, t, p, ch) && Moves(t, p, t', Act(m, p, ch).p) && t'.fix <= t'.s <= t'.w
    ensures Counts(Act(m, p, ch).m, t') && Bias(Act(m, p, ch).m, t')
  {
    hide Storages, Blocks;
  }

  lemma CleanUpBooks(m: Shared, t: Tally, p: Pc, ch: Choice, t': Tally)
    requires p.WeakFlags? || p.WeakStrongLoad? || p.WeakFreeBlock? || p.WeakLast?
    requires Ready(m, t, p, ch) && Moves(t, p, t', Act(m, p, ch).p) && t'.fix <= t'.s <= t'.w
    ensures Books(Act(m, p, ch).m, t')
  {
    CleanUpBooksCount(m, t, p, ch, t');
  }

  lemma PromoteLoadBooks(m: Shared, t: Tally, p: Pc, ch: Choice, t': Tally)
    requires p.TryLoad?
    requires Ready(m, t, p, ch) && Moves(t, p, t', Act(m, p, ch).p) && t'.fix <= t'.s <= t'.w
    ensures Books(Act(m, p, ch).m, t')
  {
  }

  lemma PromoteCasBooksCount(m: Shared, t: Tally, p: Pc, ch: Choice, t': Tally)
    requires p.TryCas?
    requires Ready(m, t, p, ch) && Moves(t, p, t', Act(m, p, ch).p) && t'.fix <= t'.s <= t'.w
    ensures Counts(Act(m, p, ch).m, t') && Bias(Act(m, p, ch).m, t')
  {
    hide Storages, Blocks;
  }

  lemma PromoteCasBooks(m: Shared, t: Tally, p: Pc, ch: Choice, t': Tally)
    requires p.TryCas?
    requires Ready(m, t, p, ch) && Moves(t, p, t', Act(m, p, ch).p) && t'.fix <= t'.s <= t'.w
    ensures Books(Act(m, p, ch).m, t')
  {
    PromoteCasBooksCount(m, t, p, ch, t');
  }

  lemma PromoteFlagsBooks(m: Shared, t: Tally, p: Pc, ch: Choice, t': Tally)
    requires p.TryFlags?
    requires Ready(m, t, p, ch) && Moves(t, p, t', Act(m, p, ch).p) && t'.fix <= t'.s <= t'.w
    ensures Books(Act(m, p, ch).m, t')
  {
  }

  lemma PromoteFirstBooksCount(m: Shared, t: Tally, p: Pc, ch: Choice, t': Tally)
    requires p.TryFirstCas?
    requires Ready(m, t, p, ch) && Moves(t, p, t', Act(m, p, ch).p) && t'.fix <= t'.s <= t'.w
    ensures Counts(Act(m, p, ch).m, t') && Bias(Act(m, p, ch).m, t')
  {
    hide Storages, Blocks;
  }

  lemma PromoteFirstBooks(m: Shared, t: Tally, p: Pc, ch: Choice, t': Tally)
    requires p.TryFirstCas?
    requires Ready(m, t, p, ch) && Moves(t, p, t', Act(m, p, ch).p) && t'.fix <= t'.s <= t'.w
    ensures Books(Act(m, p, ch).m, t')
  {
    PromoteFirstBooksCount(m, t, p, ch, t');
  }

  lemma ReviveAskBooks(m: Shared, t: Tally, p: Pc, ch: Choice, t': Tally)
    requires p.TryAsk?
    requires Ready(m, t, p, ch) && Moves(t, p, t', Act(m, p, ch).p) && t'.fix <= t'.s <= t'.w
    ensures Books(Act(m, p, ch).m, t')
  {
  }

  lemma ReviveBooksCount(m: Shared, t: Tally, p: Pc, ch: Choice, t': Tally)
    requires p.TryAdd?
    requires Ready(m, t, p, ch) && Moves(t, p, t', Act(m, p, ch).p) && t'.fix <= t'.s <= t'.w
    ensures Counts(Act(m, p, ch).m, t') && Bias(Act(m, p, ch).m, t')
  {
    hide Storages, Blocks;
  }

  lemma ReviveBooks(m: Shared, t: Tally, p: Pc, ch: Choice, t': Tally)
    requires p.TryAdd?
    requires Ready(m, t, p, ch) && Moves(t, p, t', Act(m, p, ch).p) && t'.fix <= t'.s <= t'.w
    ensures Books(Act(m, p, ch).m, t')
  {
    ReviveBooksCount(m, t, p, ch, t');
  }

  lemma RevivedBooks(m: Shared, t: Tally, p: Pc, ch: Choice, t': Tally)
    requires p.TryLastStrong? || p.TryUnbias?
    requires Ready(m, t, p, ch) && Moves(t, p, t', Act(m, p, ch).p) && t'.fix <= t'.s <= t'.w
    ensures Books(Act(m, p, ch).m, t')
  {
  }

  lemma AttemptWeakLoadBooks(m: Shared, t: Tally, p: Pc, ch: Choice, t': Tally)
    requires p.TryWeakLoad?
    requires Ready(m, t, p, ch) && Moves(t, p, t', Act(m, p, ch).p) && t'.fix <= t'.s <= t'.w
    ensures Books(Act(m, p, ch).m, t')
  {
  }

  lemma AttemptWeakBooksCount(m: Shared, t: Tally, p: Pc, ch: Choice, t': Tally)
    requires p.TryWeakCas?
    requires Ready(m, t, p, ch) && Moves(t, p, t', Act(m, p, ch).p) && t'.fix <= t'.s <= t'.w
    ensures Counts(Act(m, p, ch).m, t') && Bias(Act(m, p, ch).m, t')
  {
    hide Storages, Blocks;
  }

  lemma AttemptWeakBooks(m: Shared, t: Tally, p: Pc, ch: Choice, t': Tally)
    requires p.TryWeakCas?
    requires Ready(m, t, p, ch) && Moves(t, p, t', Act(m, p, ch).p) && t'.fix <= t'.s <= t'.w
    ensures Books(Act(m, p, ch).m, t')
  {
    AttemptWeakBooksCount(m, t, p, ch, t');
  }

  lemma ActBooks(m: Shared, t: Tally, p: Pc, ch: Choice, t': Tally)
    requires Ready(m, t, p, ch) && Moves(t, p, t', Act(m, p, ch).p) && t'.fix <= t'.s <= t'.w
    ensures Books(Act(m, p, ch).m, t')
  {
    hide *;
    match p
    case Idle =>
      if ch.call == CallDecStrong {
        BeginDecStrongBooks(m, t, p, ch, t');
      } else if ch.call == CallDecWeak {
        BeginDecWeakBooks(m, t, p, ch, t');
      } else {
        BeginAddsBooks(m, t, p, ch, t');
      }
    case IncAddWeak(_) => AddWeakBooks(m, t, p, ch, t');
    case IncAddStrong(_) => AddStrongBooks(m, t, p, ch, t');
    case IncUnbias => UnbiasBooks(m, t, p, ch, t');
    case IncFirstRef => UnbiasBooks(m, t, p, ch, t');
    case ReqAddWeak => AddWeakBooks(m, t, p, ch, t');
    case ReqAddStrong => AddStrongBooks(m, t, p, ch, t');
    case WeakAdd(_) => AddWeakBooks(m, t, p, ch, t');
    case DecSub => DecStrongBooks(m, t, p, ch, t');
    case DecLastStrong => DecStrongBooks(m, t, p, ch, t');
    case DecFlags => DecStrongBooks(m, t, p, ch, t');
    case Destroy(_) => DestroyBooks(m, t, p, ch, t');
    case DtorFlags(_) => DestroyBooks(m, t, p, ch, t');
    case DtorStrong(_) => DestroyBooks(m, t, p, ch, t');
    case DtorWeak(_) => DestructorEndBooks(m, t, p, ch, t');
    case DtorFreeBlock(_) => DestructorEndBooks(m, t, p, ch, t');
    case DtorEnd(_) => DestructorEndBooks(m, t, p, ch, t');
    case WeakSub => DecWeakBooks(m, t, p, ch, t');
    case WeakFlags => CleanUpBooks(m, t, p, ch, t');
    case WeakStrongLoad => CleanUpBooks(m, t, p, ch, t');
    case WeakFreeBlock => CleanUpBooks(m, t, p, ch, t');
    case WeakLast => CleanUpBooks(m, t, p, ch, t');
    case TryAddWeak => AddWeakBooks(m, t, p, ch, t');
    case TryLoad => PromoteLoadBooks(m, t, p, ch, t');
    case TryCas(_) => PromoteCasBooks(m, t, p, ch, t');
    case TryFlags(_) => PromoteFlagsBooks(m, t, p, ch, t');
    case TryFirstCas(_) => PromoteFirstBooks(m, t, p, ch, t');
    case TryAsk => ReviveAskBooks(m, t, p, ch, t');
    case TryAdd => ReviveBooks(m, t, p, ch, t');
    case TryLastStrong => RevivedBooks(m, t, p, ch, t');
    case TryUnbias => RevivedBooks(m, t, p, ch, t');
    case TryWeakLoad(_) => AttemptWeakLoadBooks(m, t, p, ch, t');
    case TryWeakCas(_, _) => AttemptWeakBooks(m, t, p, ch, t');
  }

  /** What one step does to the references held and to the storage. */
  lemma ActKeeps(m: Shared, p: Pc, ch: Choice)
    requires p == Idle ==> HasHandle(m, ch.call)
    requires Local(m.life, p)
    ensures var m' := Act(m, p, ch).m;
      && m'.life == m.life
      && m'.log.unbiased >= m.log.unbiased
      && m'.log.zeroStrong >= m.log.zeroStrong
      && (m'.block == m.block || Cleaner(p))
      && m'.sHeld >= m.sHeld - (if p == Idle && ch.call == CallDecStrong then 1 else 0)
      && m'.wHeld >= m.wHeld - (if p == Idle && ch.call == CallDecWeak then 1 else 0)
  {
    hide *;
    ActKeepsReferences(m, p, ch);
    ActKeepsLife(m, p, ch);
    ActKeepsLog(m, p, ch);
    ActKeepsBlock(m, p, ch);
  }

  lemma ActKeepsReferences(m: Shared, p: Pc, ch: Choice)
    requires p == Idle ==> HasHandle(m, ch.call)
    ensures var m' := Act(m, p, ch).m;
      && m'.sHeld >= m.sHeld - (if p == Idle && ch.call == CallDecStrong then 1 else 0)
      && m'.wHeld >= m.wHeld - (if p == Idle && ch.call == CallDecWeak then 1 else 0)
  {
  }

  lemma ActKeepsLife(m: Shared, p: Pc, ch: Choice)
    requires p == Idle ==> HasHandle(m, ch.call)
    requires Local(m.life, p)
    ensures Act(m, p, ch).m.life == m.life
  {
  }

  lemma ActKeepsLog(m: Shared, p: Pc, ch: Choice)
    requires p == Idle ==> HasHandle(m, ch.call)
    requires Local(m.life, p)
    ensures var m' := Act(m, p, ch).m;
      m'.log.unbiased >= m.log.unbiased && m'.log.zeroStrong >= m.log.zeroStrong
  {
  }

  lemma ActKeepsBlock(m: Shared, p: Pc, ch: Choice)
    requires p == Idle ==> HasHandle(m, ch.call)
    requires Local(m.life, p)
    ensures Act(m, p, ch).m.block == m.block || Cleaner(p)
  {
  }

  /** The stepping thread keeps what holds for it. */
  lemma ActHere(m: Shared, t: Tally, p: Pc, ch: Choice)
    requires Ready(m, t, p, ch)
    ensures Here(Act(m, p, ch).m, Act(m, p, ch).p)
  {
    if p.DecSub? || p.DecLastStrong? || p.DecFlags? {
      ActHereRelease(m, t, p, ch);
    } else if p.WeakSub? || p.WeakFlags? || p.WeakStrongLoad? || p.WeakFreeBlock? || p.WeakLast? {
      ActHereRelease(m, t, p, ch);
    } else if p.Destroy? || p.DtorFlags? || p.DtorStrong? || p.DtorWeak? || p.DtorFreeBlock? || p.DtorEnd? {
      ActHereDestroy(m, t, p, ch);
    } else if p.Idle? || p.IncAddWeak? || p.IncAddStrong? || p.IncUnbias? || p.IncFirstRef? || p.WeakAdd? {
      ActHereBegin(m, t, p, ch);
    } else {
      ActHereAcquire(m, t, p, ch);
    }
  }

  lemma ActHereBegin(m: Shared, t: Tally, p: Pc, ch: Choice)
    requires Ready(m, t, p, ch)
    requires p.Idle? || p.IncAddWeak? || p.IncAddStrong? || p.IncUnbias? || p.IncFirstRef? || p.WeakAdd?
    ensures Here(Act(m, p, ch).m, Act(m, p, ch).p)
  {
    hide Weight;
  }

  lemma ActHereRelease(m: Shared, t: Tally, p: Pc, ch: Choice)
    requires Ready(m, t, p, ch)
    requires p.DecSub? || p.DecLastStrong? || p.DecFlags?
          || p.WeakSub? || p.WeakFlags? || p.WeakStrongLoad? || p.WeakFreeBlock? || p.WeakLast?
    ensures Here(Act(m, p, ch).m, Act(m, p, ch).p)
  {
  }

  lemma ActHereDestroy(m: Shared, t: Tally, p: Pc, ch: Choice)
    requires Ready(m, t, p, ch)
    requires p.Destroy? || p.DtorFlags? || p.DtorStrong? || p.DtorWeak? || p.DtorFreeBlock? || p.DtorEnd?
    ensures Here(Act(m, p, ch).m, Act(m, p, ch).p)
  {
  }

  lemma ActHereAcquire(m: Shared, t: Tally, p: Pc, ch: Choice)
    requires Ready(m, t, p, ch)
    requires !p.DecSub? && !p.DecLastStrong? && !p.DecFlags?
    requires !p.WeakSub? && !p.WeakFlags? && !p.WeakStrongLoad? && !p.WeakFreeBlock? && !p.WeakLast?
    requires !p.Destroy? && !p.DtorFlags? && !p.DtorStrong? && !p.DtorWeak? && !p.DtorFreeBlock? && !p.DtorEnd?
    requires !p.Idle? && !p.IncAddWeak? && !p.IncAddStrong? && !p.IncUnbias? && !p.IncFirstRef? && !p.WeakAdd?
    ensures Here(Act(m, p, ch).m, Act(m, p, ch).p)
  {
    if p.TryLoad? || p.TryCas? || p.TryFlags? || p.TryFirstCas? {
      ActHerePromote(m, t, p, ch);
      hide Act, Here, Ready;
    } else if p.TryAsk? || p.TryAdd? || p.TryLastStrong? || p.TryUnbias? {
      ActHereRevive(m, t, p, ch);
      hide Act, Here, Ready;
    } else {
      ActHereWeak(m, t, p, ch);
      hide Act, Here, Ready;
    }
  }

  lemma ActHereRevive(m: Shared, t: Tally, p: Pc, ch: Choice)
    requires Ready(m, t, p, ch)
    requires p.TryAsk? || p.TryAdd? || p.TryLastStrong? || p.TryUnbias?
    ensures Here(Act(m, p, ch).m, Act(m, p, ch).p)
  {
    hide Weight;
  }

  lemma ActHereWeak(m: Shared, t: Tally, p: Pc, ch: Choice)
    requires Ready(m, t, p, ch)
    requires p.ReqAddWeak? || p.ReqAddStrong? || p.TryAddWeak? || p.TryWeakLoad? || p.TryWeakCas?
    ensures Here(Act(m, p, ch).m, Act(m, p, ch).p)
  {
    hide Weight;
  }

  lemma ActHerePromote(m: Shared, t: Tally, p: Pc, ch: Choice)
    requires Ready(m, t, p, ch)
    requires p.TryLoad? || p.TryCas? || p.TryFlags? || p.TryFirstCas?
    ensures Here(Act(m, p, ch).m, Act(m, p, ch).p)
  {
    hide Weight;
  }

  /** A step never takes away what another thread relies on. */
  lemma ActOther(m: Shared, t: Tally, p: Pc, ch: Choice, q: Pc)
    requires Ready(m, t, p, ch) && Here(m, q)
    requires !First(q) && !Cleaner(q)
    requires First(p) || Cleaner(p) ==> q == Idle
    requires Act(m, p, ch).m.life == StrongLifetime ==> Act(m, p, ch).m.log.zeroStrong <= 1
    requires p == Idle && ch.call == CallDecStrong && PinsStrong(q) ==> m.sHeld > 1
    requires p == Idle && ch.call == CallDecWeak && PinsWeak(q) ==> m.wHeld > 1
    ensures Here(Act(m, p, ch).m, q)
  {
    hide Act, Weight, Books;
    ActKeeps(m, p, ch);
  }

  // ------------------------------------------------------------ all the threads

  /** The thread's share before and after its step. */
  lemma StepTotal(s: State, i: nat, ch: Choice)
    requires Enabled(s, i, ch)
    ensures Moves(Total(s.threads), s.threads[i], Total(Step(s, i, ch).threads), Act(s.m, s.threads[i], ch).p)
    ensures var t := Total(Step(s, i, ch).threads); t.fix <= t.s <= t.w
  {
    hide Weight, Act, Total;
    TotalUpdate(s.threads, i, Act(s.m, s.threads[i], ch).p);
    TotalOrder(Step(s, i, ch).threads);
  }

  /** What the invariant gives the thread that takes the next step. */
  lemma InvReady(s: State, i: nat, ch: Choice)
    requires Inv(s) && Enabled(s, i, ch)
    ensures Ready(s.m, Total(s.threads), s.threads[i], ch)
  {
    hide Weight, Total, Books, Here, First, Cleaner;
    var p := s.threads[i];
    TotalCovers(s.threads, i);
    if First(p) || Cleaner(p) {
      TotalSingle(s.threads, i);
    }
    if p == Idle && NobodyElse(s) {
      TotalIdle(s.threads);
    }
  }

  /** A thread that holds no reference, relies on none and is not alone is idle. */
  lemma ActiveHolds(m: Shared, p: Pc)
    requires Here(m, p) && m.sHeld == 0 && m.wHeld == 0
    requires Weight(p).w == 0 && !First(p) && !Cleaner(p)
    ensures p == Idle
  {
  }

  lemma LastWeakCounts(m: Shared, t: Tally)
    requires Counts(m, t) && m.weak == 1 && AtMost(Weight(WeakSub), t)
    ensures m.sHeld == 0 && m.wHeld == 0 && t.w == 1 && Weight(WeakSub).w == 1
  {
  }

  /** Whoever takes the weak count to zero is the only thread in a call. */
  lemma LastWeakIsAlone(s: State, i: nat)
    requires Inv(s) && i < |s.threads| && s.threads[i] == WeakSub && s.m.weak == 1
    ensures OthersIdle(s.threads, i)
  {
    hide Total, Weight, Here, First, Cleaner, Storages, Blocks, Bias, Counts;
    var ts := s.threads;
    TotalCovers(ts, i);
    LastWeakCounts(s.m, Total(ts));
    forall j | 0 <= j < |ts| && j != i
      ensures ts[j] == Idle
    {
      TotalCoversTwo(ts, i, j);
      ActiveHolds(s.m, ts[j]);
    }
  }

  /** While a thread is alone in a call, nothing else can step. */
  lemma LoneBlocksOthers(s: State, i: nat, ch: Choice, j: nat)
    requires Inv(s) && Enabled(s, i, ch) && j < |s.threads| && j != i
    ensures !First(s.threads[j]) && !Cleaner(s.threads[j])
  {
    hide Total, Books, Weight;
  }

  /** A step that leads into a call made alone, or into the clean-up, leaves the others idle. */
  lemma StepAlone(s: State, i: nat, ch: Choice)
    requires Inv(s) && Enabled(s, i, ch)
    requires var p := Act(s.m, s.threads[i], ch).p; First(p) || Cleaner(p)
    ensures OthersIdle(s.threads, i)
  {
    hide Total, Weight, Here, First, Cleaner, Books;
    InvReady(s, i, ch);
    AloneFrom(s.m, Total(s.threads), s.threads[i], ch);
    if s.threads[i] == WeakSub && s.m.weak == 1 {
      LastWeakIsAlone(s, i);
    }
  }

  lemma AloneFrom(m: Shared, t: Tally, p: Pc, ch: Choice)
    requires Ready(m, t, p, ch)
    requires First(Act(m, p, ch).p) || Cleaner(Act(m, p, ch).p)
    ensures First(p) || Cleaner(p) || (p == WeakSub && m.weak == 1) || (p == Idle && StartsAlone(ch.call))
  {
    hide Weight, Storages, Blocks;
  }

  predicate StartsAlone(call: Call) {
    (call.CallIncStrong? || call.CallIncWeak? || call.CallAttemptIncWeak?) && call.who == Alone
  }

  lemma BooksBound(m: Shared, t: Tally)
    requires Books(m, t)
    ensures m.life == StrongLifetime ==> m.log.zeroStrong <= 1
  {
  }

  lemma StepInv(s: State, i: nat, ch: Choice)
    requires Inv(s) && Enabled(s, i, ch)
    ensures Inv(Step(s, i, ch))
  {
    hide Act, Weight, Total, Books, Here, First, Cleaner, Moves, Begins, AtMost;
    var s' := Step(s, i, ch);
    var p, p' := s.threads[i], s'.threads[i];
    InvReady(s, i, ch);
    StepTotal(s, i, ch);
    ActBooks(s.m, Total(s.threads), p, ch, Total(s'.threads));
    ActHere(s.m, Total(s.threads), p, ch);
    BooksBound(s'.m, Total(s'.threads));
    if First(p') || Cleaner(p') {
      StepAlone(s, i, ch);
    }
    forall j | 0 <= j < |s.threads| && j != i
      ensures Here(s'.m, s'.threads[j]) && !First(s'.threads[j]) && !Cleaner(s'.threads[j])
    {
      LoneBlocksOthers(s, i, ch, j);
      ActOther(s.m, Total(s.threads), p, ch, s.threads[j]);
    }
  }

  lemma NextInv(s: State, s': State)
    requires Inv(s) && Next(s, s')
    ensures Inv(s')
  {
    hide Inv, Step, Enabled;
    var i: nat, ch: Choice :| Enabled(s, i, ch) && s' == Step(s, i, ch);
    StepInv(s, i, ch);
  }

  /** Every state of every run satisfies the invariant. */
  lemma {:induction false} RunInv(run: seq<State>, k: nat)
    requires IsRun(run) && k < |run|
    ensures Inv(run[k])
  {
    hide Next, Inv;
    if k == 0 {
      InitInv(run[0]);
    } else {
      RunInv(run, k - 1);
      assert Next(run[k - 1], run[k - 1 + 1]);
      NextInv(run[k - 1], run[k]);
    }
  }
}
