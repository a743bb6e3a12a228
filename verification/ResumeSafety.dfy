/** However often a download is interrupted, what is on disk is the beginning of the
    resource, and exactly when a completed one is all of it. */
module ResumeSafety {
  import opened Common
  import opened Resume

  lemma WriteKeepsPrefix(file: seq<byte>, off: nat, n: nat, resource: seq<byte>)
    requires file <= resource && off <= |file| && off + n <= |resource|
    ensures var file' := WriteAt(file, off, resource[off..off + n]);
      file' == resource[..if off + n > |file| then off + n else |file|]
  {
    var data := resource[off..off + n];
    assert file == resource[..|file|];
    if n > 0 {
      assert file[..off] + data == resource[..off + n];
      if off + n < |file| {
        assert file[..off] + data + file[off + n..] == file;
      }
    }
  }

  /** The loop, one turn at a time, by positions in the resource and the events. */
  lemma PumpTurn(file: seq<byte>, pos: nat, end: nat, resource: seq<byte>, events: seq<Event>, i: nat)
    requires pos <= end <= |resource| && i <= |events|
    ensures var r := Pump(file, pos, resource[pos..end], events[i..]);
      if pos == end then r == Pumped(file, 0, true)
      else if i == |events| || events[i].Cut? then r == Pumped(file, 0, false)
      else
        var n := Min(events[i].n, end - pos);
        if events[i].fails then
          r == Pumped(WriteAt(file, pos, resource[pos..pos + Min(events[i].wrote, n)]), 0, false)
        else
          var next := WriteAt(file, pos, resource[pos..pos + n]);
          var rest := Pump(next, pos + n, resource[pos + n..end], events[i + 1..]);
          r == rest.(written := n + rest.written)
  {
    hide WriteAt;
    if pos < end && i < |events| && events[i].Recv? {
      var body, n := resource[pos..end], Min(events[i].n, end - pos);
      var m := Min(events[i].wrote, n);
      assert body[..n] == resource[pos..pos + n] && body[n..] == resource[pos + n..end];
      assert body[..m] == resource[pos..pos + m];
      assert events[i..][1..] == events[i + 1..];
    }
  }

  /** The transfer loop, however it is cut: the file stays a prefix of the
      resource and does not shrink; success means it reaches the announced end and
      the count of written bytes is the whole body; failure stops short of it. */
  lemma {:induction false} PumpKeepsPrefix(file: seq<byte>, off: nat, end: nat, resource: seq<byte>, events: seq<Event>)
    requires file <= resource && off <= |file| && off <= end <= |resource|
    ensures var r := Pump(file, off, resource[off..end], events);
      && r.file <= resource && |file| <= |r.file| <= Max(|file|, end)
      && |r.file| >= off + r.written
      && (r.ok ==> |r.file| == Max(|file|, end) && r.written == end - off)
      && (!r.ok ==> r.written < end - off)
    decreases |events|
  {
    hide Pump, WriteAt;
    assert events[0..] == events;
    PumpTurn(file, off, end, resource, events, 0);
    if off < end && events != [] && events[0].Recv? {
      var n := Min(events[0].n, end - off);
      if events[0].fails {
        WriteKeepsPrefix(file, off, Min(events[0].wrote, n), resource);
      } else {
        WriteKeepsPrefix(file, off, n, resource);
        PumpKeepsPrefix(WriteAt(file, off, resource[off..off + n]), off + n, end, resource, events[1..]);
      }
    }
  }

  lemma FetchKeepsPrefix(file: seq<byte>, resource: seq<byte>, a: Attempt)
    requires file <= resource && StartOf(a.answer) <= |file| && InRange(a.answer, resource)
    ensures var r := Fetch(file, resource, |file|, a);
      && r.file <= resource
      && (r.ok ==> |r.file| == Max(Kept(|file|, a), EndOf(a.answer, resource)))
      && (r.ok ==> StartOf(a.answer) + r.written == EndOf(a.answer, resource))
      && (a.answer.Partial? && a.answer.start > 0 ==> |file| <= |r.file|)
  {
    hide Pump;
    var start, end := StartOf(a.answer), EndOf(a.answer, resource);
    if start == 0 && |file| > 0 {
      PumpKeepsPrefix([], start, end, resource, a.events);
    } else {
      PumpKeepsPrefix(file, start, end, resource, a.events);
    }
  }

  lemma PrefixIsWhole(file: seq<byte>, resource: seq<byte>)
    requires file <= resource
    ensures file == resource <==> |file| == |resource|
  {
  }

  // ------------------------------------------------- what an attempt comes to

  /** The bytes that arrive and are written before the transfer is cut or a write
      fails, and what a write that fails still leaves in the file. */
  function Got(events: seq<Event>): nat {
    if events == [] || events[0].Cut? || events[0].fails then 0 else events[0].n + Got(events[1..])
  }

  function Torn(events: seq<Event>): nat {
    if events == [] || events[0].Cut? then 0
    else if events[0].fails then Min(events[0].wrote, events[0].n)
    else Torn(events[1..])
  }

  /** The loop succeeds exactly if enough arrives, and counts what did. */
  lemma {:induction false} PumpArrives(file: seq<byte>, off: nat, body: seq<byte>, events: seq<Event>)
    ensures var r := Pump(file, off, body, events);
      (r.ok <==> |body| <= Got(events)) && r.written == Min(|body|, Got(events))
    decreases |events|
  {
    hide WriteAt;
    if body != [] && events != [] && events[0].Recv? && !events[0].fails {
      var n := Min(events[0].n, |body|);
      PumpArrives(WriteAt(file, off, body[..n]), off + n, body[n..], events[1..]);
    }
  }

  lemma {:induction false} PumpSize(file: seq<byte>, off: nat, end: nat, resource: seq<byte>, events: seq<Event>)
    requires file <= resource && off <= |file| && off <= end <= |resource|
    ensures |Pump(file, off, resource[off..end], events).file|
            == Max(|file|, off + Min(end - off, Got(events) + Torn(events)))
    decreases |events|
  {
    hide Pump, WriteAt;
    assert events[0..] == events;
    PumpTurn(file, off, end, resource, events, 0);
    if off < end && events != [] && events[0].Recv? {
      var n := Min(events[0].n, end - off);
      if events[0].fails {
        WriteKeepsPrefix(file, off, Min(events[0].wrote, n), resource);
      } else {
        WriteKeepsPrefix(file, off, n, resource);
        PumpSize(WriteAt(file, off, resource[off..off + n]), off + n, end, resource, events[1..]);
      }
    }
  }

  /** The server starts over, although something is there. */
  predicate Refused(size: nat, a: Attempt) {
    StartOf(a.answer) == 0 && size > 0
  }

  /** The transfer gets as far as the body. */
  predicate Reads(size: nat, a: Attempt) {
    !a.answer.NoAnswer? && !a.seekFails && !(Refused(size, a) && a.truncateFails)
  }

  /** And the whole body arrives and is written. */
  predicate Arrives(size: nat, resource: seq<byte>, a: Attempt) {
    Reads(size, a) && EndOf(a.answer, resource) <= StartOf(a.answer) + Got(a.events)
  }

  /** How much is in the file when the transfer is over. */
  function SizeAfter(size: nat, resource: seq<byte>, a: Attempt): nat
    requires InRange(a.answer, resource)
  {
    if !Reads(size, a) then size
    else
      var start, end := StartOf(a.answer), EndOf(a.answer, resource);
      Max(Kept(size, a), start + Min(end - start, Got(a.events) + Torn(a.events)))
  }

  predicate Called(a: Attempt) {
    !a.prepareFails && !a.openFails && !a.serviceFails && !a.canceledEarly
  }

  /** When the transfer succeeds, and what it counts, on any file. */
  lemma FetchArrives(file: seq<byte>, resource: seq<byte>, resumeFrom: nat, a: Attempt)
    requires InRange(a.answer, resource)
    ensures var r := Fetch(file, resource, resumeFrom, a);
      && (r.ok <==> Arrives(resumeFrom, resource, a))
      && r.written == if Reads(resumeFrom, a)
                      then Min(EndOf(a.answer, resource) - StartOf(a.answer), Got(a.events)) else 0
  {
    hide Pump, Got;
    var start, end := StartOf(a.answer), EndOf(a.answer, resource);
    PumpArrives(if Refused(resumeFrom, a) then [] else file, start, resource[start..end], a.events);
  }

  /** What it leaves in the file: exactly so many bytes of the resource. */
  lemma FetchIsExact(file: seq<byte>, resource: seq<byte>, a: Attempt)
    requires file <= resource && StartOf(a.answer) <= |file| && InRange(a.answer, resource)
    ensures SizeAfter(|file|, resource, a) <= |resource|
    ensures Fetch(file, resource, |file|, a).file == resource[..SizeAfter(|file|, resource, a)]
  {
    hide Pump, Got, Torn;
    var start, end := StartOf(a.answer), EndOf(a.answer, resource);
    var from := if Refused(|file|, a) then [] else file;
    PumpSize(from, start, end, resource, a.events);
    PumpKeepsPrefix(from, start, end, resource, a.events);
  }

  // ------------------------------------------------- a 206 that starts too late

  predicate Zeros(resource: seq<byte>, from: nat, to: nat)
    requires to <= |resource|
  {
    forall i :: from <= i < to ==> resource[i] == 0
  }

  /** What a write behind the end of the file makes of the resource. */
  function Holed(file: seq<byte>, off: nat, resource: seq<byte>): (h: seq<byte>)
    requires |file| <= off <= |resource|
    ensures |h| == |resource| && h[off..] == resource[off..]
  {
    file + Repeat(0, off - |file|) + resource[off..]
  }

  lemma HoleShows(file: seq<byte>, off: nat, resource: seq<byte>, g: seq<byte>)
    requires file <= resource && |file| < off < |g| && off <= |resource|
    requires g <= Holed(file, off, resource)
    ensures g <= resource <==> Zeros(resource, |file|, off)
  {
    var h := Holed(file, off, resource);
    assert forall i :: 0 <= i < |g| ==> g[i] == h[i];
    assert forall i :: off <= i < |g| ==> h[i] == resource[off..][i - off];
    if g <= resource {
      assert forall i :: |file| <= i < off ==> resource[i] == g[i] == h[i] == 0;
    }
  }

  lemma WriteLeavesHole(file: seq<byte>, off: nat, n: nat, resource: seq<byte>)
    requires |file| < off && 0 < n && off + n <= |resource|
    ensures WriteAt(file, off, resource[off..off + n]) == Holed(file, off, resource)[..off + n]
  {
    assert resource[off..][..n] == resource[off..off + n];
  }

  /** The loop, when it starts behind the end of the file: either nothing is written,
      or the hole is filled with zeros, and the file is a prefix of the resource
      only if zeros is what it has there. */
  lemma {:induction false} PumpLeavesHole(file: seq<byte>, off: nat, end: nat, resource: seq<byte>, events: seq<Event>)
    requires file <= resource && |file| < off <= end <= |resource|
    ensures var r := Pump(file, off, resource[off..end], events);
      && (r.file <= resource <==> r.file == file || Zeros(resource, |file|, off))
      && (r.file == file || |r.file| > off)
      && (r.ok ==> |r.file| == if off < end then end else |file|)
    decreases |events|
  {
    hide Pump, WriteAt, Holed, Zeros;
    assert events[0..] == events;
    PumpTurn(file, off, end, resource, events, 0);
    if off < end && events != [] && events[0].Recv? {
      var n := Min(events[0].n, end - off);
      var k := if events[0].fails then Min(events[0].wrote, n) else n;
      if k == 0 {
        NothingWritten(file, off, resource);
        if !events[0].fails { PumpLeavesHole(file, off, end, resource, events[1..]); }
      } else {
        var h := Holed(file, off, resource);
        WriteLeavesHole(file, off, k, resource);
        HoleShows(file, off, resource, h[..off + k]);
        if !events[0].fails {
          TailsAgree(h, resource, off, off + k, end);
          PumpKeepsPrefix(h[..off + k], off + k, end, h, events[1..]);
          HoleShows(file, off, resource, Pump(h[..off + k], off + k, resource[off + k..end], events[1..]).file);
        }
      }
    }
  }

  lemma TailsAgree<T>(a: seq<T>, b: seq<T>, off: nat, from: nat, to: nat)
    requires off <= from <= to <= |a| && |a| == |b| && a[off..] == b[off..]
    ensures a[from..to] == b[from..to]
  {
    assert a[from..to] == a[off..][from - off..to - off];
  }

  lemma NothingWritten(file: seq<byte>, off: nat, resource: seq<byte>)
    requires off <= |resource|
    ensures WriteAt(file, off, resource[off..off + 0]) == file
  {
  }
}
