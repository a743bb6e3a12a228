/** What one attempt, and any number of them, make of a download: exactly. */
module ResumeTheorems {
  import opened Common
  import opened Resume
  import opened ResumeSafety

  /** One attempt, whatever happens to it: `.part` stays a prefix of the resource;
      `destPath` changes only by the rename of a completed task, which leaves no
      `.part` and a prefix of the resource: all of it exactly if the answer
      reached its end. */
  lemma AttemptIsSafe(f: Files, resource: seq<byte>, a: Attempt)
    requires PartOk(f, resource) && Honest(f, resource, a)
    ensures var r := TaskResult(f, resource, a);
      && PartOk(r.files, resource)
      && (r.verdict == Completed ==>
            && r.files.part == None && r.files.dest.Some? && r.files.dest.value <= resource
            && (r.files.dest == Some(resource) <==> ReachesEnd(f, resource, a)))
      && (r.verdict != Completed ==> r.files.dest == f.dest)
      && (r.verdict == Failed ==> r.files.part != Some([]))
  {
    var file := if f.part.Some? then f.part.value else [];
    FetchKeepsPrefix(file, resource, a);
    assert Fetch(file, resource, |file|, a).ok ==> a.answer != NoAnswer;
    PrefixIsWhole(Fetch(file, resource, |file|, a).file, resource);
    hide Fetch;
  }

  /** A 206 that ends too soon is renamed into place all the same: 200 bytes of 1024
      are there, the server sends the next 301, and the task is completed. */
  lemma ShortRangeCompletes(resource: seq<byte>, a: Attempt)
    requires |resource| == 1024
    requires a == Attempt(false, false, false, false, Partial(200, 501), false, false,
                          [Recv(301, false, 0)], false, false)
    ensures var f := Files(Some(resource[..200]), None);
      && PartOk(f, resource) && Honest(f, resource, a)
      && TaskResult(f, resource, a) == Result(Files(None, Some(resource[..501])), Completed)
      && resource[..501] != resource
  {
    var f := Files(Some(resource[..200]), None);
    hide Pump, WriteAt;
    assert a.events[0..] == a.events;
    PumpTurn(resource[..200], 200, 501, resource, a.events, 0);
    WriteKeepsPrefix(resource[..200], 200, 301, resource);
    PumpTurn(resource[..501], 501, 501, resource, a.events, 1);
  }

  /** An attempt that the server lets resume loses nothing already on disk. */
  lemma ResumedAttemptKeepsBytes(f: Files, resource: seq<byte>, a: Attempt)
    requires PartOk(f, resource) && Honest(f, resource, a)
    requires a.answer.NoAnswer? || (a.answer.Partial? && a.answer.start > 0)
    ensures var r := TaskResult(f, resource, a);
      r.verdict != Completed ==> FileSize(f.part) <= FileSize(r.files.part)
  {
    FetchKeepsPrefix(if f.part.Some? then f.part.value else [], resource, a);
  }

  /** The attempt that completed. */
  function CompletedBy(f: Files, resource: seq<byte>, attempts: seq<Attempt>): (i: nat)
    requires RunAll(f, resource, attempts).verdict == Completed
    ensures i < |attempts|
    decreases |attempts|
  {
    var n := |attempts| - 1;
    if RunAll(f, resource, attempts[..n]).verdict == Completed then CompletedBy(f, resource, attempts[..n]) else n
  }

  /** Over any number of attempts, each cut short anywhere and with the server
      honouring or ignoring the range each time anew: `.part` is a prefix of the
      resource; `destPath` is untouched until an attempt completes, and then it is
      a prefix too, the whole resource exactly if the answer to that attempt
      reached the end. */
  lemma {:induction false} AnyAttemptsAreSafe(f: Files, resource: seq<byte>, attempts: seq<Attempt>)
    requires PartOk(f, resource)
    ensures var r := RunAll(f, resource, attempts);
      && PartOk(r.files, resource)
      && (r.verdict != Completed ==> r.files.dest == f.dest)
      && (r.verdict == Completed ==>
            var i := CompletedBy(f, resource, attempts);
            var before := RunAll(f, resource, attempts[..i]).files;
            && r.files.part == None && r.files.dest.Some? && r.files.dest.value <= resource
            && Honest(before, resource, attempts[i])
            && (r.files.dest == Some(resource) <==> ReachesEnd(before, resource, attempts[i])))
    decreases |attempts|
  {
    hide TaskResult, ReachesEnd, PartOk, Honest;
    if attempts != [] {
      var n := |attempts| - 1;
      var r := RunAll(f, resource, attempts[..n]);
      AnyAttemptsAreSafe(f, resource, attempts[..n]);
      if r.verdict == Completed {
        var i := CompletedBy(f, resource, attempts[..n]);
        assert attempts[..n][..i] == attempts[..i];
      } else if Honest(r.files, resource, attempts[n]) {
        AttemptIsSafe(r.files, resource, attempts[n]);
      }
    }
  }

  /** In particular, with a server that always sends to the end what it starts to
      send, `destPath` is untouched until it is exactly the resource. */
  lemma WholeRangesAreEnough(f: Files, resource: seq<byte>, attempts: seq<Attempt>)
    requires PartOk(f, resource)
    requires forall a <- attempts :: EndOf(a.answer, resource) == |resource|
    ensures var r := RunAll(f, resource, attempts);
      r.files.dest == if r.verdict == Completed then Some(resource) else f.dest
  {
    hide RunAll, CompletedBy;
    AnyAttemptsAreSafe(f, resource, attempts);
  }

  /** The verdict on an attempt, from what happens to it alone. */
  lemma VerdictIsExact(f: Files, resource: seq<byte>, a: Attempt)
    requires InRange(a.answer, resource)
    ensures var v := TaskResult(f, resource, a).verdict; var arrives := Arrives(FileSize(f.part), resource, a);
      && (v == Completed <==> Called(a) && arrives && !a.renameFails)
      && (v == Canceled <==>
            !a.prepareFails && !a.openFails && !a.serviceFails
            && (a.canceledEarly || (!arrives && a.canceledLate)))
  {
    hide Fetch, Arrives;
    var file := if f.part.Some? then f.part.value else [];
    FetchArrives(file, resource, |file|, a);
  }

  /** And all it leaves behind: exactly so many bytes of the resource, in `destPath`
      if it completed and otherwise in `.part`, which goes if it would be empty and
      the attempt failed. */
  lemma AttemptIsExact(f: Files, resource: seq<byte>, a: Attempt)
    requires PartOk(f, resource) && Honest(f, resource, a)
    ensures var r := TaskResult(f, resource, a);
      var size := if Called(a) then SizeAfter(FileSize(f.part), resource, a) else FileSize(f.part);
      && size <= |resource|
      && r.files == match r.verdict
                    case Completed => Files(None, Some(resource[..size]))
                    case Canceled => Files(Some(resource[..size]), f.dest)
                    case Failed => Files(if size == 0 then None else Some(resource[..size]), f.dest)
  {
    hide Fetch;
    var file := if f.part.Some? then f.part.value else [];
    FetchIsExact(file, resource, a);
    assert file == resource[..|file|];
  }

  /** In particular a server that starts over with a 200 does no harm: what is there
      is cut off, and with nothing in the way the resource is complete. */
  lemma StartingOverCompletes(f: Files, resource: seq<byte>, a: Attempt)
    requires PartOk(f, resource) && a.answer.Full? && Called(a)
    requires !a.seekFails && !a.truncateFails && !a.renameFails && |resource| <= Got(a.events)
    ensures TaskResult(f, resource, a) == Result(Files(None, Some(resource)), Completed)
  {
    hide TaskResult;
    VerdictIsExact(f, resource, a);
    AttemptIsExact(f, resource, a);
    assert resource[..|resource|] == resource;
  }

  /** So such an attempt ends any series of attempts. */
  lemma LastAttemptCompletes(f: Files, resource: seq<byte>, attempts: seq<Attempt>, a: Attempt)
    requires PartOk(f, resource) && a.answer.Full? && Called(a)
    requires !a.seekFails && !a.truncateFails && !a.renameFails && |resource| <= Got(a.events)
    ensures var r := RunAll(f, resource, attempts + [a]);
      && r.verdict == Completed
      && (RunAll(f, resource, attempts).verdict != Completed ==> r.files.dest == Some(resource))
  {
    hide TaskResult;
    var all := attempts + [a];
    assert all[..|all| - 1] == attempts;
    AnyAttemptsAreSafe(f, resource, attempts);
    StartingOverCompletes(RunAll(f, resource, attempts).files, resource, a);
  }

  /** The start of a 206 is not compared with the offset asked for.  One that starts
      behind the end of `.part` and completes leaves the whole resource exactly if
      it reaches the end and the resource has zeros where bytes are missing. */
  lemma LateRangeLeavesHole(f: Files, resource: seq<byte>, a: Attempt)
    requires PartOk(f, resource) && InRange(a.answer, resource) && FileSize(f.part) < StartOf(a.answer)
    ensures var r := TaskResult(f, resource, a); var size := FileSize(f.part);
      && (r.verdict == Completed ==>
            && r.files.dest.Some?
            && (r.files.dest == Some(resource) <==>
                  && StartOf(a.answer) < EndOf(a.answer, resource) == |resource|
                  && Zeros(resource, size, StartOf(a.answer))))
      && (r.verdict != Completed ==>
            (PartOk(r.files, resource) <==>
               FileSize(r.files.part) == size || Zeros(resource, size, StartOf(a.answer))))
  {
    hide Pump, Zeros;
    var file := if f.part.Some? then f.part.value else [];
    PumpLeavesHole(file, StartOf(a.answer), EndOf(a.answer, resource), resource, a.events);
    var after := Fetch(file, resource, |file|, a).file;
    if after <= resource { PrefixIsWhole(after, resource); }
  }
}
