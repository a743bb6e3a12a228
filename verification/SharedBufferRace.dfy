/** One SharedBuffer used by any number of threads at once: every atomic operation
    on mRefs, every access to the storage and the free are steps of their own.
    Whoever acquires holds a reference already; a reference may be handed over. */
module SharedBufferRace {

  /** Where a thread is inside release (the first four) or edit. */
  datatype Pc =
    | Idle
    | Releasing
    | Storing
    | Subtracting
    | Last
    | Freeing
    | Editing
    | Writing
    | Copying

  /** A thread and the references it holds, without the one its call is about. */
  datatype Thread = Thread(held: nat, pc: Pc)

  datatype State = State(refs: int, version: nat, frees: nat, threads: seq<Thread>)

  datatype Act =
    | Acquire
    | HandOver(to: nat)
    | Read
    | BeginRelease
    | BeginEdit
    | Write
    | EndWrite
    | Go

  datatype Step = Step(who: nat, act: Act)

  predicate Init(s: State) {
    && s.refs == 1 && s.version == 0 && s.frees == 0
    && s.threads != [] && s.threads[0] == Thread(1, Idle)
    && (forall i :: 0 < i < |s.threads| ==> s.threads[i] == Thread(0, Idle))
  }

  predicate Enabled(s: State, step: Step) {
    && step.who < |s.threads|
    && var t := s.threads[step.who];
       match step.act
       case Acquire => t.pc == Idle && t.held > 0
       case HandOver(to) => t.pc == Idle && t.held > 0 && to < |s.threads|
       case Read => t.pc == Idle && t.held > 0
       case BeginRelease => t.pc == Idle && t.held > 0
       case BeginEdit => t.pc == Idle && t.held > 0
       case Write => t.pc == Writing
       case EndWrite => t.pc == Writing
       case Go => t.pc != Idle && t.pc != Writing
  }

  /** One step inside a call. */
  function Going(s: State, i: nat): State
    requires i < |s.threads| && Enabled(s, Step(i, Go))
  {
    var t := s.threads[i];
    match t.pc
    case Releasing => Put(s, i, t.(pc := if s.refs == 1 then Storing else Subtracting))
    case Storing => Put(s.(refs := 0), i, t.(pc := Last))
    case Subtracting => Put(s.(refs := s.refs - 1), i, t.(pc := if s.refs == 1 then Last else Idle))
    case Last => Put(s, i, t.(pc := Freeing))
    case Freeing => Put(s.(frees := s.frees + 1), i, t.(pc := Idle))
    case Editing => Put(s, i, t.(pc := if s.refs == 1 then Writing else Copying))
    case Copying => Put(s, i, t.(pc := Releasing))
  }

  function Put(s: State, i: nat, t: Thread): State
    requires i < |s.threads|
  {
    s.(threads := s.threads[i := t])
  }

  function Next(s: State, step: Step): State
    requires Enabled(s, step)
  {
    var i, t := step.who, s.threads[step.who];
    match step.act
    case Acquire => Put(s.(refs := s.refs + 1), i, t.(held := t.held + 1))
    case HandOver(to) =>
      var given := Put(s, i, t.(held := t.held - 1));
      Put(given, to, given.threads[to].(held := given.threads[to].held + 1))
    case Read => s
    case BeginRelease => Put(s, i, Thread(t.held - 1, Releasing))
    case BeginEdit => Put(s, i, Thread(t.held - 1, Editing))
    case Write => s.(version := s.version + 1)
    case EndWrite => Put(s, i, Thread(t.held + 1, Idle))
    case Go => Going(s, i)
  }

  /** The steps that reach into the buffer: its count, its bytes, or its storage. */
  predicate Touches(s: State, step: Step)
    requires Enabled(s, step)
  {
    !step.act.HandOver? && !step.act.BeginRelease? && !step.act.BeginEdit? && !step.act.EndWrite?
  }

  ghost predicate IsRun(run: seq<State>, steps: seq<Step>) {
    && |run| == |steps| + 1
    && Init(run[0])
    && forall k :: 0 <= k < |steps| ==> Enabled(run[k], steps[k]) && run[k + 1] == Next(run[k], steps[k])
  }
}
