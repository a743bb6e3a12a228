/** Every reference to a shared buffer is accounted for, so it is freed once, with the
    last of them, and written only by a thread that has the only one. */
module SharedBufferSafety {
  import opened Common
  import opened SharedBufferRace

  // ---------------------------------------------------------------- the invariant

  /** The references a thread accounts for, the one its call is about included. */
  function Owed(t: Thread): nat {
    t.held + if t.pc.Idle? || t.pc.Last? || t.pc.Freeing? then 0 else 1
  }

  /** Whether a thread has taken the count to zero and not freed the buffer yet. */
  function Closing(t: Thread): nat {
    if t.pc.Last? || t.pc.Freeing? then 1 else 0
  }

  /** A thread that found itself the only owner still is. */
  predicate StillAlone(s: State, t: Thread) {
    t.pc.Storing? || t.pc.Writing? ==> s.refs == 1
  }

  ghost predicate Inv(s: State) {
    && s.refs == Sum(s.threads, Owed)
    && s.frees + Sum(s.threads, Closing) == (if s.refs == 0 then 1 else 0)
    && forall i :: 0 <= i < |s.threads| ==> StillAlone(s, s.threads[i])
  }

  // ------------------------------------------------------------ every step keeps it

  /** Any number of threads can start with one new buffer. */
  lemma Starts(n: nat)
    requires n > 0
    ensures exists s :: Init(s) && |s.threads| == n
  {
    assert Init(State(1, 0, 0, [Thread(1, Idle)] + seq(n - 1, _ => Thread(0, Idle))));
  }

  lemma InitInv(s: State)
    requires Init(s)
    ensures Inv(s)
  {
    forall i | 0 <= i < |s.threads[1..]| ensures s.threads[1..][i] == Thread(0, Idle) {
      assert s.threads[1..][i] == s.threads[i + 1];
    }
    SumIsZero(s.threads[1..], Owed);
    SumIsZero(s.threads, Closing);
  }

  /** While thread `i` is the only owner and acts on it, no other owes anything. */
  lemma AloneIsAlone(s: State, i: nat, j: nat)
    requires Inv(s) && i < |s.threads| && j < |s.threads| && i != j
    requires s.threads[i].pc.Storing? || s.threads[i].pc.Writing?
    ensures s.refs == 1 && Owed(s.threads[i]) == 1 && Owed(s.threads[j]) == 0
  {
    assert StillAlone(s, s.threads[i]);
    SumHasBoth(s.threads, Owed, if i < j then i else j, if i < j then j else i);
  }

  /** A step of one thread that changes its own entry and the count alike. */
  lemma OneThread(s: State, i: nat, t: Thread, refs: int, frees: nat)
    requires Inv(s) && i < |s.threads|
    requires refs - s.refs == Owed(t) - Owed(s.threads[i])
    requires frees + Closing(t) == s.frees + Closing(s.threads[i])
                                   + (if refs == 0 then 1 else 0) - (if s.refs == 0 then 1 else 0)
    requires t.pc.Storing? || t.pc.Writing? ==> refs == 1
    requires refs == s.refs || Owed(s.threads[i]) > 0
    ensures Inv(Put(State(refs, s.version, frees, s.threads), i, t))
  {
    SumPut(s.threads, Owed, i, t);
    SumPut(s.threads, Closing, i, t);
    var s' := Put(State(refs, s.version, frees, s.threads), i, t);
    forall j | 0 <= j < |s.threads| ensures StillAlone(s', s'.threads[j]) {
      if j != i {
        assert StillAlone(s, s.threads[j]);
        if s.threads[j].pc.Storing? || s.threads[j].pc.Writing? { AloneIsAlone(s, j, i); }
      }
    }
  }

  lemma GoingInv(s: State, i: nat)
    requires Inv(s) && i < |s.threads| && Enabled(s, Step(i, Go))
    ensures Inv(Going(s, i))
  {
    hide Inv;
    var t := s.threads[i];
    CountIsPositive(s, i);
    match t.pc
    case Releasing => OneThread(s, i, t.(pc := if s.refs == 1 then Storing else Subtracting), s.refs, s.frees);
    case Storing => OneThread(s, i, t.(pc := Last), 0, s.frees);
    case Subtracting => OneThread(s, i, t.(pc := if s.refs == 1 then Last else Idle), s.refs - 1, s.frees);
    case Last => OneThread(s, i, t.(pc := Freeing), s.refs, s.frees);
    case Freeing => OneThread(s, i, t.(pc := Idle), s.refs, s.frees + 1);
    case Editing => OneThread(s, i, t.(pc := if s.refs == 1 then Writing else Copying), s.refs, s.frees);
    case Copying => OneThread(s, i, t.(pc := Releasing), s.refs, s.frees);
  }

  lemma CountIsPositive(s: State, i: nat)
    requires Inv(s) && i < |s.threads|
    ensures s.refs >= Owed(s.threads[i])
    ensures s.threads[i].pc.Storing? ==> s.refs == 1 && s.threads[i].held == 0
    ensures s.threads[i].pc.Writing? ==> s.refs == 1
  {
    assert StillAlone(s, s.threads[i]);
    SumHas(s.threads, Owed, i);
  }

  lemma StepInv(s: State, step: Step)
    requires Inv(s) && Enabled(s, step)
    ensures Inv(Next(s, step))
  {
    hide Inv;
    var i, t := step.who, s.threads[step.who];
    CountIsPositive(s, i);
    match step.act
    case Acquire => OneThread(s, i, t.(held := t.held + 1), s.refs + 1, s.frees);
    case HandOver(to) => HandOverInv(s, i, to);
    case Read =>
    case BeginRelease => OneThread(s, i, Thread(t.held - 1, Releasing), s.refs, s.frees);
    case BeginEdit => OneThread(s, i, Thread(t.held - 1, Editing), s.refs, s.frees);
    case Write => WriteInv(s);
    case EndWrite => OneThread(s, i, Thread(t.held + 1, Idle), s.refs, s.frees);
    case Go => GoingInv(s, i);
  }

  lemma WriteInv(s: State)
    requires Inv(s)
    ensures Inv(s.(version := s.version + 1))
  {
    var s' := s.(version := s.version + 1);
    forall i | 0 <= i < |s'.threads| ensures StillAlone(s', s'.threads[i]) {
      assert StillAlone(s, s.threads[i]);
    }
  }

  lemma HandOverInv(s: State, i: nat, to: nat)
    requires Inv(s) && Enabled(s, Step(i, HandOver(to)))
    ensures Inv(Next(s, Step(i, HandOver(to))))
  {
    var t := s.threads[i].(held := s.threads[i].held - 1);
    var given := s.threads[i := t];
    var u := given[to].(held := given[to].held + 1);
    SumPut(s.threads, Owed, i, t);
    SumPut(s.threads, Closing, i, t);
    SumPut(given, Owed, to, u);
    SumPut(given, Closing, to, u);
    var s' := Next(s, Step(i, HandOver(to)));
    forall j | 0 <= j < |s'.threads| ensures StillAlone(s', s'.threads[j]) {
      assert StillAlone(s, s.threads[j]) && s'.threads[j].pc == s.threads[j].pc;
    }
  }

  /** Every state of every run satisfies the invariant. */
  lemma {:induction false} RunInv(run: seq<State>, steps: seq<Step>, k: nat)
    requires IsRun(run, steps) && k < |run|
    ensures Inv(run[k])
  {
    hide Init, Enabled, Inv, Next;
    if k == 0 {
      InitInv(run[0]);
    } else {
      RunInv(run, steps, k - 1);
      StepInv(run[k - 1], steps[k - 1]);
      assert run[k - 1 + 1] == Next(run[k - 1], steps[k - 1]);
    }
  }
}
