/** The worker's own code on its two files. */
module ResumeImpl {
  import opened Common
  import opened Resume
  import opened ResumeSafety
  import opened ResumeTheorems

  /** The worker of one destination path, changing its two files in place. */
  class Download {
    var part: Option<seq<byte>>
    var dest: Option<seq<byte>>

    constructor (dest: Option<seq<byte>>)
      ensures part == None && this.dest == dest
    {
      part := None;
      this.dest := dest;
    }

    ghost function View(): Files
      reads this
    {
      Files(part, dest)
    }

    /** The body loop: every piece that arrives is written where it belongs. */
    method PumpBody(resource: seq<byte>, start: nat, end: nat, events: seq<Event>) returns (ok: bool, written: nat)
      requires part.Some? && start <= end <= |resource|
      modifies this`part
      ensures part.Some?
      ensures Pumped(part.value, written, ok) == Pump(old(part.value), start, resource[start..end], events)
    {
      hide Pump, WriteAt;
      assert events == events[0..];
      ghost var all := Pump(part.value, start, resource[start..end], events);
      ok, written := false, 0;
      var i := 0;
      while start + written < end
        invariant part.Some? && i <= |events| && start + written <= end
        invariant var rest := Pump(part.value, start + written, resource[start + written..end], events[i..]);
          all.file == rest.file && all.ok == rest.ok && all.written == written + rest.written
        decreases |events| - i
      {
        var pos := start + written;
        PumpTurn(part.value, pos, end, resource, events, i);
        if i == |events| || events[i].Cut? { return; }
        var e := events[i];
        var n := Min(e.n, end - pos);
        if e.fails {
          part := Some(WriteAt(part.value, pos, resource[pos..pos + Min(e.wrote, n)]));
          return;
        }
        part := Some(WriteAt(part.value, pos, resource[pos..pos + n]));
        written := written + n;
        i := i + 1;
      }
      PumpTurn(part.value, start + written, end, resource, events, i);
      ok := true;
    }

    /** HttpService::fetchToFd: seek, truncate when the resume was refused, then
        the body. */
    method FetchToFd(resource: seq<byte>, resumeFrom: nat, a: Attempt) returns (ok: bool, written: nat)
      requires part.Some? && InRange(a.answer, resource)
      modifies this`part
      ensures part.Some?
      ensures Pumped(part.value, written, ok) == Fetch(old(part.value), resource, resumeFrom, a)
      ensures ok <==> Arrives(resumeFrom, resource, a)
    {
      FetchArrives(part.value, resource, resumeFrom, a);
      hide Arrives;
      ok, written := false, 0;
      var start := StartOf(a.answer);
      if a.answer.NoAnswer? || a.seekFails { return; }
      if start == 0 && resumeFrom > 0 {
        if a.truncateFails { return; }
        part := Some([]);
      }
      ok, written := PumpBody(resource, start, EndOf(a.answer, resource), a.events);
    }

    /** The failure path of runTask. */
    method FailTask() returns (verdict: Verdict)
      modifies this`part
      ensures Result(View(), verdict) == Fail(old(View()))
    {
      if FileSize(part) == 0 { part := None; }
      verdict := Failed;
    }

    /** DownloadService::runTask */
    method RunTask(resource: seq<byte>, a: Attempt) returns (verdict: Verdict)
      requires Honest(View(), resource, a)
      modifies this
      ensures Result(View(), verdict) == TaskResult(old(View()), resource, a)
      ensures verdict == Completed <==>
        Called(a) && Arrives(FileSize(old(part)), resource, a) && !a.renameFails
    {
      VerdictIsExact(View(), resource, a);
      hide Arrives, Called;
      if a.prepareFails || a.openFails {
        verdict := FailTask();
        return;
      }
      var resumeFrom := FileSize(part);
      if part.None? { part := Some([]); }
      if a.serviceFails {
        verdict := FailTask();
        return;
      }
      if a.canceledEarly { return Canceled; }
      var ok, written := FetchToFd(resource, resumeFrom, a);
      if !ok {
        if a.canceledLate { return Canceled; }
        verdict := FailTask();
        return;
      }
      if a.renameFails {
        verdict := FailTask();
        return;
      }
      dest := part;
      part := None;
      verdict := Completed;
    }

    /** The same command given again and again until it completes; what that means
        for the two files is AnyAttemptsAreSafe. */
    method Retry(resource: seq<byte>, attempts: seq<Attempt>) returns (verdict: Verdict)
      requires PartOk(View(), resource)
      modifies this
      ensures Result(View(), verdict) == RunAll(old(View()), resource, attempts)
      ensures PartOk(View(), resource)
      ensures verdict != Completed ==> dest == old(dest)
      ensures verdict == Completed ==>
        var i := CompletedBy(old(View()), resource, attempts);
        && part == None && dest.Some? && dest.value <= resource
        && (dest == Some(resource) <==>
              ReachesEnd(RunAll(old(View()), resource, attempts[..i]).files, resource, attempts[i]))
    {
      hide TaskResult, ReachesEnd, PartOk, Honest;
      ghost var before := View();
      verdict := Failed;
      for i := 0 to |attempts|
        invariant Result(View(), verdict) == RunAll(before, resource, attempts[..i])
      {
        assert attempts[..i + 1][..i] == attempts[..i];
        if verdict != Completed && Honest(Files(part, dest), resource, attempts[i]) {
          verdict := RunTask(resource, attempts[i]);
        }
      }
      assert attempts[..|attempts|] == attempts;
      AnyAttemptsAreSafe(before, resource, attempts);
    }
  }
}
