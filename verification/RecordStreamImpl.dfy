/** The record stream object: one buffer of a record's size, compacted before each
    read. */
module RecordStreamImpl {
  import opened Common
  import opened RecordStream

  /** What a read does: brings at most `n` bytes, or fails. */
  datatype Turn = UpTo(n: nat) | Fails

  /** EFBIG, behind an assert(0), is TooLong; EAGAIN is Again. */
  datatype Outcome = Record(data: seq<byte>) | EndOfStream | Again | ReadError | TooLong

  class Stream {
    const maxRecordLen: nat
    const buffer: array<byte>
    var unconsumed: nat
    var readEnd: nat
    var unread: seq<byte>

    ghost predicate Valid()
      reads this
    {
      buffer.Length == maxRecordLen + HEADER_SIZE && unconsumed <= readEnd <= buffer.Length
    }

    /** The bytes not yet handed out: the rest of the buffer, and what is to be read. */
    ghost function Pending(): seq<byte>
      requires Valid()
      reads this, buffer
    {
      buffer[unconsumed..readEnd] + unread
    }

    constructor (maxRecordLen: nat, unread: seq<byte>)
      ensures Valid() && fresh(buffer)
      ensures Pending() == unread && this.maxRecordLen == maxRecordLen
    {
      this.maxRecordLen := maxRecordLen;
      this.unread := unread;
      buffer := new byte[maxRecordLen + HEADER_SIZE](_ => 0);
      unconsumed, readEnd := 0, 0;
    }

    /** getNextRecord: nothing is consumed unless the whole record is there. */
    method NextBuffered() returns (record: Option<seq<byte>>)
      requires Valid()
      modifies this`unconsumed
      ensures Valid()
      ensures match record
              case None => unconsumed == old(unconsumed) && FirstRecord(buffer[unconsumed..readEnd]).None?
              case Some(data) =>
                FirstRecord(old(buffer[unconsumed..readEnd])) == Some((data, buffer[unconsumed..readEnd]))
    {
      if readEnd < unconsumed + HEADER_SIZE { return None; }
      var have := buffer[unconsumed..readEnd];
      var len := Length(have);
      var end := unconsumed + HEADER_SIZE + len;
      if readEnd < end { return None; }
      record := Some(have[HEADER_SIZE..HEADER_SIZE + len]);
      assert forall k :: 0 <= k < readEnd - end ==> have[HEADER_SIZE + len..][k] == buffer[end..readEnd][k];
      assert have[HEADER_SIZE + len..] == buffer[end..readEnd];
      unconsumed := end;
    }

    /** memmove of the remainder to the front. */
    method Compact()
      requires Valid()
      modifies this`unconsumed, this`readEnd, buffer
      ensures Valid() && unconsumed == 0 && readEnd == old(readEnd - unconsumed)
      ensures buffer[..readEnd] == old(buffer[unconsumed..readEnd])
    {
      ghost var s := buffer[unconsumed..readEnd];
      var toMove := readEnd - unconsumed;
      var i := 0;
      while i < toMove
        invariant i <= toMove && unconsumed == old(unconsumed) && readEnd == old(readEnd)
        invariant buffer[..i] == s[..i]
        invariant buffer[unconsumed + i..readEnd] == s[i..]
      {
        assert buffer[unconsumed + i] == buffer[unconsumed + i..readEnd][0];
        buffer[i] := buffer[unconsumed + i];
        i := i + 1;
      }
      readEnd, unconsumed := toMove, 0;
    }

    /** read into the free end of the buffer, which is never empty. */
    method ReadMore(turn: Turn) returns (count: int)
      requires Valid() && readEnd < buffer.Length
      modifies this`readEnd, this`unread, buffer
      ensures Valid()
      ensures buffer[..old(readEnd)] == old(buffer[..readEnd])
      ensures old(readEnd) <= readEnd && buffer[old(readEnd)..readEnd] + unread == old(unread)
      ensures count == if turn.Fails? then -1 else readEnd - old(readEnd)
      ensures count == 0 <==> turn.UpTo? && (turn.n == 0 || old(unread) == [])
    {
      if turn.Fails? { return -1; }
      var space := buffer.Length - readEnd;
      var n := if turn.n < space then turn.n else space;
      if |unread| < n { n := |unread|; }
      var start := readEnd;
      var i := 0;
      while i < n
        invariant i <= n && readEnd == start && unread == old(unread)
        invariant buffer[..start] == old(buffer[..readEnd])
        invariant buffer[start..start + i] == unread[..i]
      {
        buffer[start + i] := unread[i];
        i := i + 1;
      }
      readEnd := start + n;
      unread := unread[n..];
      count := n;
    }

    /** Room is made and used: the buffer was not full from its start. */
    method Refill(turn: Turn) returns (count: int)
      requires Valid() && (unconsumed > 0 || readEnd < buffer.Length) && (turn.UpTo? ==> turn.n > 0)
      modifies this`unconsumed, this`readEnd, this`unread, buffer
      ensures Valid() && Pending() == old(Pending())
      ensures count < 0 ==> turn.Fails?
      ensures count == 0 ==> unread == [] && buffer[unconsumed..readEnd] == old(buffer[unconsumed..readEnd])
      ensures count > 0 ==> |unread| < |old(unread)|
    {
      ghost var all := Pending();
      ghost var s := buffer[unconsumed..readEnd];
      if unconsumed != 0 { Compact(); }
      assert buffer[..readEnd] == s;
      ghost var was := readEnd;
      count := ReadMore(turn);
      assert buffer[..readEnd] == s + buffer[was..readEnd];
      assert buffer[unconsumed..readEnd] == buffer[..readEnd];
    }

    /** record_stream_get_next: the next record of the stream, or nothing of it is
        lost.  The full buffer is only met with a record longer than allowed. */
    method GetNext(turn: Turn) returns (out: Outcome)
      requires Valid() && (turn.UpTo? ==> turn.n > 0)
      modifies this`unconsumed, this`readEnd, this`unread, buffer
      ensures Valid()
      ensures out.Record? ==> FirstRecord(old(Pending())) == Some((out.data, Pending()))
      ensures !out.Record? ==> Pending() == old(Pending())
      ensures out.EndOfStream? ==> unread == [] && FirstRecord(Pending()).None?
      ensures out.Again? ==> |unread| < |old(unread)|
      ensures out.ReadError? ==> turn.Fails?
      ensures out.TooLong? ==> |Pending()| >= HEADER_SIZE && Length(Pending()) > maxRecordLen
    {
      ghost var all := Pending();
      ghost var s := buffer[unconsumed..readEnd];
      var record := NextBuffered();
      if record.Some? {
        FirstIsStable(s, unread);
        return Record(record.value);
      }
      if unconsumed == 0 && readEnd == buffer.Length {
        assert Length(all) == Length(s);
        return TooLong;
      }
      var count := Refill(turn);
      if count <= 0 {
        return if count == 0 then EndOfStream else ReadError;
      }
      ghost var more := buffer[unconsumed..readEnd];
      record := NextBuffered();
      if record.None? { return Again; }
      FirstIsStable(more, unread);
      return Record(record.value);
    }
  }

  lemma HeadFits(s: seq<byte>, max: nat)
    requires AllFit(s, max)
    ensures |s| >= HEADER_SIZE ==> Length(s) <= max
    ensures FirstRecord(s).None? ==> Records(s) == []
    ensures FirstRecord(s).Some? ==>
      var (record, rest) := FirstRecord(s).value;
      Records(s) == [record] + Records(rest) && AllFit(rest, max)
  {
    hide Length;
  }

  /** A client that calls for records as the stream becomes readable: however the
      reads cut the stream, it gets its records, all of them by the end. */
  method ReadAll(st: Stream, turns: seq<Turn>) returns (got: seq<seq<byte>>, ended: bool)
    requires st.Valid() && AllFit(st.Pending(), st.maxRecordLen)
    requires forall t <- turns :: t.UpTo? ==> t.n > 0
    modifies st, st.buffer
    ensures st.Valid()
    ensures got + Records(st.Pending()) == Records(old(st.Pending()))
    ensures ended ==> got == Records(old(st.Pending()))
  {
    hide Records, AllFit, FirstRecord, Length;
    got, ended := [], false;
    ghost var all := Records(st.Pending());
    for i := 0 to |turns|
      invariant st.Valid() && AllFit(st.Pending(), st.maxRecordLen)
      invariant got + Records(st.Pending()) == all
    {
      ghost var before := st.Pending();
      var out := st.GetNext(turns[i]);
      HeadFits(before, st.maxRecordLen);
      if out.Record? { got := got + [out.data]; }
      if out.EndOfStream? { return got, true; }
    }
  }
}
