/** What the accounting of references to a shared buffer promises its users. */
module SharedBufferTheorems {
  import opened Common
  import opened SharedBufferRace
  import opened SharedBufferSafety

  // -------------------------------------------------------------- what it promises

  /** No thread's next step reaches into a freed buffer, and it is freed once. */
  lemma NoUseAfterFree(run: seq<State>, steps: seq<Step>, k: nat, step: Step)
    requires IsRun(run, steps) && k < |run| && Enabled(run[k], step)
    ensures run[k].frees <= 1
    ensures Touches(run[k], step) ==> run[k].frees == 0
  {
    RunInv(run, steps, k);
    SumHas(run[k].threads, Owed, step.who);
    SumHas(run[k].threads, Closing, step.who);
  }

  /** The buffer is freed, or about to be, exactly when no reference is left. */
  lemma FreedWithLastReference(run: seq<State>, steps: seq<Step>, k: nat)
    requires IsRun(run, steps) && k < |run|
    ensures var s := run[k];
      (s.frees == 1 || exists i :: 0 <= i < |s.threads| && Closing(s.threads[i]) == 1)
      <==> (forall i :: 0 <= i < |s.threads| ==> Owed(s.threads[i]) == 0)
  {
    RunInv(run, steps, k);
    var s := run[k];
    if forall i :: 0 <= i < |s.threads| ==> Owed(s.threads[i]) == 0 {
      SumIsZero(s.threads, Owed);
      if forall i :: 0 <= i < |s.threads| ==> Closing(s.threads[i]) == 0 { SumIsZero(s.threads, Closing); }
    } else {
      var i :| 0 <= i < |s.threads| && Owed(s.threads[i]) != 0;
      SumHas(s.threads, Owed, i);
      forall j | 0 <= j < |s.threads| ensures Closing(s.threads[j]) == 0 { SumHas(s.threads, Closing, j); }
    }
  }

  /** While a thread writes in place its reference is the only one, and no other
      thread has a step to take. */
  lemma WriterIsAlone(run: seq<State>, steps: seq<Step>, k: nat, i: nat, step: Step)
    requires IsRun(run, steps) && k < |run|
    requires i < |run[k].threads| && run[k].threads[i].pc.Writing? && step.who != i
    ensures run[k].refs == 1 && Owed(run[k].threads[i]) == 1
    ensures !Enabled(run[k], step)
  {
    RunInv(run, steps, k);
    var s := run[k];
    assert StillAlone(s, s.threads[i]);
    SumHas(s.threads, Owed, i);
    if step.who < |s.threads| {
      AloneIsAlone(s, i, step.who);
      SumHas(s.threads, Closing, step.who);
    }
  }

  lemma VersionStays(s: State, step: Step, j: nat)
    requires Inv(s) && Enabled(s, step)
    requires j < |s.threads| && Owed(s.threads[j]) > 0 && step != Step(j, Write)
    ensures Next(s, step).version == s.version
  {
    hide Inv;
    if step.act == Write { AloneIsAlone(s, step.who, j); }
  }

  /** For as long as a thread keeps a reference and does not write itself, the
      bytes it sees stay the same, whatever the other threads do. */
  lemma {:induction false} SnapshotHolds(run: seq<State>, steps: seq<Step>, from: nat, to: nat, j: nat)
    requires IsRun(run, steps) && from <= to < |run|
    requires forall k :: from <= k < to ==>
      j < |run[k].threads| && Owed(run[k].threads[j]) > 0 && steps[k] != Step(j, Write)
    ensures run[to].version == run[from].version
  {
    hide Init, Enabled, Inv, Next, Owed;
    if from < to {
      SnapshotHolds(run, steps, from, to - 1, j);
      RunInv(run, steps, to - 1);
      VersionStays(run[to - 1], steps[to - 1], j);
      assert run[to - 1 + 1] == Next(run[to - 1], steps[to - 1]);
    }
  }

  // ------------------------------------------------------------------- nobody waits

  /** What a thread may do next: anything with a reference it holds, or the next step of
      its call; no thread ever waits for another. */
  lemma NobodyWaits(s: State, i: nat, j: nat)
    requires i < |s.threads| && j < |s.threads|
    ensures var t := s.threads[i];
      && (t.pc == Idle ==>
            forall act :: act in {Acquire, HandOver(j), Read, BeginRelease, BeginEdit} ==>
              (Enabled(s, Step(i, act)) <==> t.held > 0))
      && (t.pc == Writing ==> Enabled(s, Step(i, Write)) && Enabled(s, Step(i, EndWrite)))
      && (t.pc != Idle && t.pc != Writing ==> Enabled(s, Step(i, Go)))
  {
  }

  /** The steps a call has left, but for the writes of an edit in place. */
  function Left(pc: Pc): nat {
    match pc
    case Editing => 6
    case Copying => 5
    case Releasing => 4
    case Storing => 3
    case Subtracting => 3
    case Last => 2
    case Freeing => 1
    case Writing => 1
    case Idle => 0
  }

  /** Every step of a call brings it nearer to its end; a release gives up one reference,
      and frees the buffer exactly if there is no other. */
  lemma CallsEnd(run: seq<State>, steps: seq<Step>, k: nat, i: nat)
    requires IsRun(run, steps) && k < |run| && Enabled(run[k], Step(i, Go))
    ensures var s, s' := run[k], Next(run[k], Step(i, Go)); var pc, pc' := s.threads[i].pc, s'.threads[i].pc;
      && Left(pc') < Left(pc)
      && s'.threads[i].held == s.threads[i].held
      && (pc == Storing || pc == Subtracting ==>
            && s'.refs == s.refs - 1
            && (pc' == Last <==> s.refs == 1))
      && (pc == Releasing ==> (pc' == Storing <==> s.refs == 1))
      && (pc != Storing && pc != Subtracting ==> s'.refs == s.refs)
      && s'.frees == (if pc == Freeing then 1 else s.frees)
  {
    hide Init, Next;
    RunInv(run, steps, k);
    CountIsPositive(run[k], i);
    SumHas(run[k].threads, Closing, i);
    hide IsRun, Inv, Sum;
    GoingIs(run[k], i);
  }

  lemma GoingIs(s: State, i: nat)
    requires Enabled(s, Step(i, Go))
    ensures Next(s, Step(i, Go)) == Going(s, i)
  {
  }

  /** An edit works in place exactly if no other reference exists, its own thread's
      included. */
  lemma EditDecides(run: seq<State>, steps: seq<Step>, k: nat, i: nat)
    requires IsRun(run, steps) && k < |run| && i < |run[k].threads| && run[k].threads[i].pc == Editing
    ensures var s := run[k]; var s' := Next(s, Step(i, Go));
      && (s'.threads[i].pc == Writing || s'.threads[i].pc == Copying)
      && (s'.threads[i].pc == Writing <==>
            s.threads[i].held == 0 && forall j :: 0 <= j < |s.threads| && j != i ==> Owed(s.threads[j]) == 0)
  {
    hide Init;
    RunInv(run, steps, k);
    var s := run[k];
    SumPut(s.threads, Owed, i, Thread(0, Idle));
    var others := s.threads[i := Thread(0, Idle)];
    if forall j :: 0 <= j < |s.threads| && j != i ==> Owed(s.threads[j]) == 0 {
      SumIsZero(others, Owed);
    } else {
      var j :| 0 <= j < |s.threads| && j != i && Owed(s.threads[j]) != 0;
      SumHas(others, Owed, j);
    }
  }
}
