/** Resuming an interrupted download: the `.part` file, the offset and truncation
    logic of HttpService::fetchToFd, and the rename at the end of
    DownloadService::runTask.

    The environment of one attempt is a value: what fails, what the server
    answers, how the body arrives and where it is cut.  The resource does not
    change, a 206 may start late or end early, and the body is framed by its
    length or by chunks, so a cut is always noticed. */
module Resume {
  import opened Common

  /** The two files of a task. */
  datatype Files = Files(part: Option<seq<byte>>, dest: Option<seq<byte>>)

  /** What the server says: no usable answer, a 206 with the bytes from `start` up
      to but not including `end`, or a 200. */
  datatype Answer = NoAnswer | Partial(start: nat, end: nat) | Full

  /** One turn of the transfer loop: `n` bytes arrive and are written (or the
      write fails after `wrote` of them), or the transfer is cut by a closed
      connection, a timeout or a cancel. */
  datatype Event = Recv(n: nat, fails: bool, wrote: nat) | Cut

  /** Everything that happens to one attempt from outside. */
  datatype Attempt = Attempt(
    prepareFails: bool,   // creating the directory
    openFails: bool,
    serviceFails: bool,   // no http service, or no request id
    canceledEarly: bool,  // the flag is set when the worker checks it
    answer: Answer,
    seekFails: bool,
    truncateFails: bool,
    events: seq<Event>,
    canceledLate: bool,   // the flag is set when fetchToFd has returned an error
    renameFails: bool)

  datatype Verdict = Completed | Failed | Canceled

  // ------------------------------------------------------------------ the file

  function FileSize(f: Option<seq<byte>>): nat {
    if f.None? then 0 else |f.value|
  }

  /** write(2) at an offset; a gap reads as zeros. */
  function WriteAt(file: seq<byte>, off: nat, data: seq<byte>): seq<byte> {
    if data == [] then file
    else if off > |file| then file + Repeat(0, off - |file|) + data
    else if off + |data| >= |file| then file[..off] + data
    else file[..off] + data + file[off + |data|..]
  }

  // ------------------------------------------------------------- one transfer

  datatype Pumped = Pumped(file: seq<byte>, written: nat, ok: bool)

  /** The body loop: what is in the file and counted as written when it ends. */
  function Pump(file: seq<byte>, off: nat, body: seq<byte>, events: seq<Event>): Pumped
    decreases |events|
  {
    if body == [] then Pumped(file, 0, true)
    else if events == [] || events[0].Cut? then Pumped(file, 0, false)
    else
      var n := Min(events[0].n, |body|);
      if events[0].fails then Pumped(WriteAt(file, off, body[..Min(events[0].wrote, n)]), 0, false)
      else
        var rest := Pump(WriteAt(file, off, body[..n]), off + n, body[n..], events[1..]);
        rest.(written := n + rest.written)
  }

  function StartOf(answer: Answer): nat {
    if answer.Partial? then answer.start else 0
  }

  function EndOf(answer: Answer, resource: seq<byte>): nat {
    if answer.Partial? then answer.end else |resource|
  }

  /** The bytes the answer announces are bytes of the resource. */
  predicate InRange(answer: Answer, resource: seq<byte>) {
    StartOf(answer) <= EndOf(answer, resource) <= |resource|
  }

  /** fetchToFd on the open file.  Only the start of a 206 is looked at; its body
      ends where its framing says. */
  function Fetch(file: seq<byte>, resource: seq<byte>, resumeFrom: nat, a: Attempt): Pumped
    requires InRange(a.answer, resource)
  {
    var start, end := StartOf(a.answer), EndOf(a.answer, resource);
    if a.answer.NoAnswer? || a.seekFails then Pumped(file, 0, false)
    else if start == 0 && resumeFrom > 0 && a.truncateFails then Pumped(file, 0, false)
    else Pump(if start == 0 && resumeFrom > 0 then [] else file, start, resource[start..end], a.events)
  }

  // ------------------------------------------------------------- one attempt

  datatype Result = Result(files: Files, verdict: Verdict)

  /** The failure path drops a `.part` that holds nothing. */
  function Fail(f: Files): Result {
    Result(if FileSize(f.part) == 0 then f.(part := None) else f, Failed)
  }

  /** The answer starts no further than the `.part` file reaches. */
  predicate Honest(f: Files, resource: seq<byte>, a: Attempt) {
    StartOf(a.answer) <= FileSize(f.part) && InRange(a.answer, resource)
  }

  /** runTask, as what it makes of the files. */
  function TaskResult(f: Files, resource: seq<byte>, a: Attempt): Result
    requires InRange(a.answer, resource)
  {
    if a.prepareFails then Fail(f)
    else if a.openFails then Fail(f)
    else
      var file := if f.part.Some? then f.part.value else [];
      var ready := f.(part := Some(file));
      if a.serviceFails then Fail(ready)
      else if a.canceledEarly then Result(ready, Canceled)
      else
        var r := Fetch(file, resource, |file|, a);
        var after := f.(part := Some(r.file));
        if !r.ok then (if a.canceledLate then Result(after, Canceled) else Fail(after))
        else if a.renameFails then Fail(after)
        else Result(Files(None, Some(r.file)), Completed)
  }

  // ------------------------------------------------------------- any number of attempts

  /** The files after any number of attempts on one destination; nothing is started
      after one has completed, and attempts with other answers are passed over. */
  function RunAll(f: Files, resource: seq<byte>, attempts: seq<Attempt>): Result
    decreases |attempts|
  {
    if attempts == [] then Result(f, Failed)
    else
      var n := |attempts| - 1;
      var r := RunAll(f, resource, attempts[..n]);
      if r.verdict == Completed || !Honest(r.files, resource, attempts[n]) then r
      else TaskResult(r.files, resource, attempts[n])
  }

  // ---------------------------------------------------------------- what is hoped for

  /** The `.part` file, if there is one, holds the beginning of the resource. */
  predicate PartOk(f: Files, resource: seq<byte>) {
    f.part.Some? ==> f.part.value <= resource
  }

  /** What is in the file when the body starts: nothing after a truncation. */
  function Kept(size: nat, a: Attempt): nat {
    if StartOf(a.answer) == 0 && size > 0 then 0 else size
  }

  /** The transfer, if it succeeds, leaves the whole resource: the answer was a 200,
      or a 206 up to the last byte, or `.part` was whole before and is kept. */
  predicate ReachesEnd(f: Files, resource: seq<byte>, a: Attempt) {
    EndOf(a.answer, resource) == |resource| || Kept(FileSize(f.part), a) == |resource|
  }
}
