/** HttpClient's Reader and body loops, over one refillable buffer.  Each loop is
    proved to do what HttpFraming says of the whole stream, so nothing depends on
    how recv splits it. */
module HttpReader {
  import opened Common
  import opened HttpFraming
  import opened HttpFramingProofs

  const BUFFER_SIZE: nat := 65536

  /** One turn of the loop around recv: the cancel flag is seen, bytes arrive,
      nothing has arrived yet (`idle`: for longer than allowed), or it is over. */
  datatype Turn = CancelSeen | Data(data: seq<byte>) | Again(idle: bool) | Closed | Broken

  predicate TurnsOk(turns: seq<Turn>) {
    forall t <- turns :: t.Data? ==> 0 < |t.data| <= BUFFER_SIZE
  }

  /** The bytes the connection still delivers. */
  function Unread(turns: seq<Turn>): seq<byte> {
    if turns == [] then []
    else match turns[0]
      case Data(data) => data + Unread(turns[1..])
      case Again(idle) => if idle then [] else Unread(turns[1..])
      case _ => []
  }

  /** How it ends; when nothing more happens, the idle timeout does. */
  function EndOf(turns: seq<Turn>): (e: Ending)
    ensures EndingOk(e)
  {
    if turns == [] then Fail(IoError)
    else match turns[0]
      case Data(_) => EndOf(turns[1..])
      case Again(idle) => if idle then Fail(IoError) else EndOf(turns[1..])
      case CancelSeen => Fail(Canceled)
      case Closed => Eof
      case Broken => Fail(IoError)
  }

  /** A turn after which the connection goes on. */
  predicate GoesOn(t: Turn) {
    t.Data? || t == Again(false)
  }

  function AllData(turns: seq<Turn>): seq<byte> {
    if turns == [] then [] else (if turns[0].Data? then turns[0].data else []) + AllData(turns[1..])
  }

  /** The connection ends with the first turn it cannot go on after: in order when the
      peer closes, cancelled when the flag is seen, and otherwise with an error, also
      when it has been idle for too long; and it delivers all the data before that. */
  lemma {:induction false} FirstEndDecides(turns: seq<Turn>, i: nat)
    requires i <= |turns| && forall j :: 0 <= j < i ==> GoesOn(turns[j])
    requires i < |turns| ==> !GoesOn(turns[i])
    ensures Unread(turns) == AllData(turns[..i])
    ensures EndOf(turns) ==
      if i < |turns| && turns[i].Closed? then Eof
      else if i < |turns| && turns[i].CancelSeen? then Fail(Canceled)
      else Fail(IoError)
  {
    if i > 0 {
      assert turns[1..][..i - 1] == turns[..i][1..];
      FirstEndDecides(turns[1..], i - 1);
    }
  }

  /** Where the body goes; it refuses once its patience is used up. */
  class Sink {
    var received: seq<byte>
    var patience: nat

    method OnBody(data: seq<byte>) returns (ok: bool)
      modifies this
      ensures ok <==> old(patience) > 0
      ensures received == if ok then old(received) + data else old(received)
      ensures !ok ==> patience == 0
    {
      ok := patience > 0;
      if ok {
        received := received + data;
        patience := patience - 1;
      }
    }
  }

  class Reader {
    const mBuffer: array<byte>
    var mAvailable: nat
    var mOffset: nat
    var turns: seq<Turn>

    ghost predicate Valid()
      reads this
    {
      mBuffer.Length == BUFFER_SIZE && mOffset <= mAvailable <= BUFFER_SIZE && TurnsOk(turns)
    }

    /** Buffered and unread bytes together: all that the parser has not seen. */
    ghost function Stream(): seq<byte>
      requires Valid()
      reads this, mBuffer
    {
      mBuffer[mOffset..mAvailable] + Unread(turns)
    }

    ghost function End(): Ending
      reads this
    {
      EndOf(turns)
    }

    constructor (turns: seq<Turn>)
      requires TurnsOk(turns)
      ensures Valid() && fresh(mBuffer)
      ensures Stream() == Unread(turns) && End() == EndOf(turns)
    {
      mBuffer := new byte[BUFFER_SIZE](_ => 0);
      mAvailable, mOffset := 0, 0;
      this.turns := turns;
    }

    /** recv into the buffer: overwrites it from the start. */
    method Receive(data: seq<byte>)
      requires Valid() && |data| <= BUFFER_SIZE
      modifies this`mAvailable, this`mOffset, mBuffer
      ensures Valid() && mBuffer[mOffset..mAvailable] == data
    {
      var i := 0;
      while i < |data|
        invariant i <= |data|
        invariant mBuffer[..i] == data[..i]
      {
        mBuffer[i] := data[i];
        i := i + 1;
      }
      mAvailable, mOffset := |data|, 0;
    }

    /** Called on an empty buffer only: it would drop what is there. */
    method Fill() returns (code: Code, eof: bool)
      requires Valid() && mOffset == mAvailable
      modifies this, mBuffer
      ensures Valid() && Stream() == old(Stream()) && End() == old(End())
      ensures code == Ok && !eof ==> mOffset < mAvailable && |turns| < |old(turns)|
      ensures code == Ok && eof ==> Stream() == [] && End() == Eof
      ensures code != Ok ==> Stream() == [] && End() == Fail(code) && code != WriteError
    {
      eof := false;
      while turns != []
        invariant Valid() && mOffset == mAvailable
        invariant Unread(turns) == old(Unread(turns)) && End() == old(End())
        invariant |turns| <= |old(turns)|
        decreases |turns|
      {
        var turn := turns[0];
        match turn
        case CancelSeen => return Canceled, false;
        case Closed => return Ok, true;
        case Broken => return IoError, false;
        case Data(data) =>
          Receive(data);
          turns := turns[1..];
          return Ok, false;
        case Again(idle) =>
          if idle { return IoError, false; }
          turns := turns[1..];
      }
      return IoError, false;
    }

    /** mBuffer[mOffset++]. */
    method NextByte() returns (c: byte)
      requires Valid() && mOffset < mAvailable
      modifies this`mOffset
      ensures Valid() && mOffset == old(mOffset) + 1 && End() == old(End())
      ensures old(Stream()) == [c] + Stream()
    {
      c := mBuffer[mOffset];
      ghost var buffered := mBuffer[mOffset..mAvailable];
      mOffset := mOffset + 1;
      assert buffered == [c] + mBuffer[mOffset..mAvailable];
    }

    /** One line, without its terminator. */
    method ReadLine() returns (code: Code, line: seq<byte>)
      requires Valid()
      modifies this, mBuffer
      ensures Valid() && End() == old(End())
      ensures var l := TakeLine(old(Stream()), old(End()));
              if l.Line? then code == Ok && line == l.text && Stream() == l.rest
              else code == l.code && code != Ok && code != WriteError
    {
      hide Stream, End, TurnsOk, TakeLine;
      ghost var all := Stream();
      ghost var end := End();
      line := [];
      while true
        invariant Valid() && End() == end
        invariant LF !in line && |line| <= MAX_LINE && all == line + Stream()
        decreases |turns|
      {
        ghost var left := |turns|;
        while mOffset < mAvailable
          invariant Valid() && End() == end && |turns| == left
          invariant LF !in line && |line| <= MAX_LINE && all == line + Stream()
        {
          var c := NextByte();
          if c == LF {
            assert all == line + [LF] + Stream();
            LineIsTaken(line, Stream(), end);
            code, line := Ok, DropCR(line);
            return;
          }
          assert all == line + [c] + Stream();
          if |line| >= MAX_LINE {
            LineTooLong(all, line + [c], end);
            return IoError, line;
          }
          line := line + [c];
        }
        var rc, eof := Fill();
        if rc != Ok || eof {
          assert all == line;
          LineMissing(all, end);
          return if rc != Ok then rc else IoError, line;
        }
      }
    }

    lemma BufferedFirst(chunk: nat)
      requires Valid() && mOffset + chunk <= mAvailable
      ensures chunk <= |Stream()| && Stream()[..chunk] == mBuffer[mOffset..mOffset + chunk]
      ensures Stream()[chunk..] == mBuffer[mOffset + chunk..mAvailable] + Unread(turns)
    {
      hide TurnsOk, Unread;
      BufferParts(mBuffer[..mAvailable], mOffset, mAvailable, chunk, Unread(turns));
    }

    /** The sink is offered the next `chunk` buffered bytes, which are consumed only
        if it takes them. */
    method Offer(sink: Sink, chunk: nat) returns (ok: bool)
      requires Valid() && mOffset + chunk <= mAvailable
      modifies this`mOffset, sink
      ensures Valid() && chunk <= |old(Stream())| && End() == old(End())
      ensures ok ==> sink.received == old(sink.received) + old(Stream())[..chunk]
                     && Stream() == old(Stream())[chunk..]
      ensures !ok ==> sink.received == old(sink.received) && Stream() == old(Stream()) && sink.patience == 0
    {
      hide TurnsOk, Unread, EndOf;
      BufferedFirst(chunk);
      ok := sink.OnBody(mBuffer[mOffset..mOffset + chunk]);
      if ok { mOffset := mOffset + chunk; }
    }

    /** Hands over `want` bytes, or everything up to the end of the connection.
        Nothing is lost or invented: what the sink has and what is left make up the
        stream. */
    method PumpPlain(sink: Sink, want: Option<nat>) returns (code: Code, written: nat)
      requires Valid()
      modifies this, mBuffer, sink
      ensures Valid() && End() == old(End())
      ensures written <= |old(Stream())|
      ensures sink.received == old(sink.received) + old(Stream())[..written]
      ensures Stream() == old(Stream())[written..]
      ensures var o := Plain(old(Stream()), old(End()), want);
              if code == WriteError then sink.patience == 0 && written <= |o.delivered|
              else code == o.code && written == |o.delivered|
    {
      hide Stream, End, TurnsOk, Plain;
      ghost var all := Stream();
      ghost var end := End();
      ghost var sent := sink.received;
      written := 0;
      while want.None? || written < want.value
        invariant Valid() && End() == end
        invariant written <= |all| && Stream() == all[written..]
        invariant want.Some? ==> written <= want.value
        invariant sink.received == sent + all[..written]
        decreases |turns|, |Stream()|
      {
        if mOffset == mAvailable {
          var rc, eof := Fill();
          if rc != Ok || eof { PlainEnds(all, end, want); }
          if rc != Ok { return rc, written; }
          if eof {
            if want.None? { return Ok, written; }
            return IoError, written;
          }
        }
        var chunk := mAvailable - mOffset;
        if want.Some? && want.value - written < chunk { chunk := want.value - written; }
        var ok := Offer(sink, chunk);
        if !ok {
          PlainReaches(all, end, want, written);
          return WriteError, written;
        }
        SliceOn(all, written, chunk);
        written := written + chunk;
      }
      PlainComplete(all, end, written);
      return Ok, written;
    }

    /** One chunk with the line that sizes it and the one that ends it. */
    method PumpChunk(sink: Sink) returns (code: Code, written: nat, last: bool)
      requires Valid()
      modifies this, mBuffer, sink
      ensures Valid() && End() == old(End())
      ensures code == Ok && !last ==> |Stream()| < |old(Stream())|
      ensures var o := Chunked(old(Stream()), old(End()));
              && written <= |o.delivered|
              && sink.received == old(sink.received) + o.delivered[..written]
              && (code == WriteError ==> sink.patience == 0)
              && (code != WriteError && (code != Ok || last) ==> code == o.code && written == |o.delivered|)
              && (code == Ok && !last ==> o == Prepend(o.delivered[..written], Chunked(Stream(), End())))
    {
      hide TakeLine, ChunkSize, Stream, End, TurnsOk;
      var header, crlf;
      code, header := ReadLine();
      written, last := 0, false;
      if code != Ok { return; }
      var size := ChunkSize(header);
      if size.None? { return IoError, 0, false; }
      if size.value == 0 { return Ok, 0, true; }
      code, written := PumpPlain(sink, size);
      if code != Ok { return; }
      code, crlf := ReadLine();
    }

    /** A chunked body, chunk after chunk, then the trailers. */
    method PumpChunked(sink: Sink) returns (code: Code, written: nat)
      requires Valid()
      modifies this, mBuffer, sink
      ensures Valid()
      ensures var o := Chunked(old(Stream()), old(End()));
              && written <= |o.delivered|
              && sink.received == old(sink.received) + o.delivered[..written]
              && if code == WriteError then sink.patience == 0
                 else code == o.code && written == |o.delivered|
    {
      hide Chunked, Stream, End, TurnsOk, TakeLine, Prepend;
      ghost var want := Chunked(Stream(), End());
      ghost var sent := sink.received;
      ghost var got := [];
      written := 0;
      PrependTwice([], [], want);
      while true
        invariant Valid()
        invariant want == Prepend(got, Chunked(Stream(), End()))
        invariant written == |got| && sink.received == sent + got
        decreases |Stream()|
      {
        ghost var o := Chunked(Stream(), End());
        var rc, done, last := PumpChunk(sink);
        PrependTake(got, o, done);
        PrependTwice(got, o.delivered[..done], Chunked(Stream(), End()));
        written := written + done;
        got := got + o.delivered[..done];
        if rc != Ok { return rc, written; }
        if last { break; }
      }
      while true
        invariant Valid() && sink.received == sent + want.delivered
        decreases |Stream()|
      {
        var rc, line := ReadLine();
        if rc != Ok || line == [] { return Ok, written; }
      }
    }
  }

  lemma PrependTwice(a: seq<byte>, b: seq<byte>, o: Outcome)
    ensures Prepend(a, Prepend(b, o)) == Prepend(a + b, o)
    ensures a == b == [] ==> Prepend(a, o) == o
  {
  }

  lemma PrependTake(a: seq<byte>, o: Outcome, k: nat)
    requires k <= |o.delivered|
    ensures |Prepend(a, o).delivered| == |a| + |o.delivered| && Prepend(a, o).code == o.code
    ensures Prepend(a, o).delivered[..|a| + k] == a + o.delivered[..k]
  {
  }

  lemma BufferParts<T>(b: seq<T>, from: nat, end: nat, k: nat, rest: seq<T>)
    requires from + k <= end <= |b|
    ensures var s := b[from..end] + rest;
            s[..k] == b[from..from + k] && s[k..] == b[from + k..end] + rest
  {
    assert b[from..end] == b[from..from + k] + b[from + k..end];
  }

  lemma SliceOn<T>(all: seq<T>, k: nat, n: nat)
    requires k + n <= |all|
    ensures all[k..][..n] == all[k..k + n] && all[k..][n..] == all[k + n..]
    ensures all[..k] + all[k..k + n] == all[..k + n]
  {
  }
}
