/** The two uses of android_log_context_internal, as the C code keeps them: one
    fixed buffer, two fixed tables indexed by nesting depth, all written in
    place. */
module EventListImpl {
  import opened Common
  import opened EventList
  import L = EventList

  lemma PutOne(s: seq<byte>, at: nat, data: seq<byte>, i: nat)
    requires i < |data| && at + |data| <= |s|
    ensures var t := s[..at] + data[..i] + s[at + i..];
            |t| == |s| && t[at + i := data[i]] == s[..at] + data[..i + 1] + s[at + i + 1..]
  {
  }

  class LogWriter {
    const storage: array<byte>
    const count: array<nat>
    const list: array<nat>
    var pos: nat
    var depth: nat
    var overflow: bool

    ghost function State(): Writer
      reads this, storage, count, list
    {
      Writer(storage[..], pos, count[..], list[..], depth, overflow)
    }

    ghost predicate Valid()
      reads this, storage, count, list
    {
      count != list && WriterOk(State())
    }

    constructor ()
      ensures Valid() && fresh(storage) && fresh(count) && fresh(list)
      ensures State() == NewWriter()
    {
      storage := new byte[STORAGE_SIZE](_ => 0);
      count := new nat[MAX_DEPTH + 1](_ => 0);
      list := new nat[MAX_DEPTH + 1](_ => 0);
      pos, depth, overflow := 0, 0, false;
      new;
      storage[0] := EVENT_TYPE_LIST;
      list[0] := pos + 1;
      pos := pos + 2;
      assert storage[..] == NewWriter().storage;
      assert count[..] == Repeat<nat>(0, MAX_DEPTH + 1);
      assert list[..] == Repeat<nat>(0, MAX_DEPTH + 1)[0 := 1];
    }

    /** memcpy into the buffer. */
    method Store(at: nat, data: seq<byte>)
      requires at + |data| <= storage.Length
      modifies storage
      ensures storage[..] == Put(old(storage[..]), at, data)
    {
      ghost var before := storage[..];
      var i := 0;
      while i < |data|
        invariant i <= |data|
        invariant storage[..] == before[..at] + data[..i] + before[at + i..]
      {
        PutOne(before, at, data, i);
        ghost var was := storage[..];
        storage[at + i] := data[i];
        assert storage[..] == was[at + i := data[i]];
        i := i + 1;
      }
    }

    method Append(data: seq<byte>, needed: nat)
      requires Valid() && depth <= MAX_DEPTH && pos + |data| <= MAX_EVENT_PAYLOAD
      modifies this`pos, storage, count
      ensures Valid() && State() == L.Append(old(State()), data, needed)
    {
      count[depth] := count[depth] + 1;
      Store(pos, data);
      pos := pos + needed;
    }

    method WriteNumber(kind: Kind, bits: nat) returns (code: int)
      requires Valid()
      modifies this, storage, count
      ensures Valid() && (State(), code) == L.WriteNumber(old(State()), kind, bits)
    {
      if overflow { return EIO; }
      var needed := 1 + kind.Width();
      if pos + needed > MAX_EVENT_PAYLOAD {
        overflow := true;
        return EIO;
      }
      Append([kind.Code()] + LittleEndian(bits, kind.Width()), needed);
      return 0;
    }

    method WriteString(s: seq<byte>) returns (code: int)
      requires Valid()
      modifies this, storage, count
      ensures Valid() && (State(), code) == L.WriteString(old(State()), s)
    {
      if overflow { return EIO; }
      var len: int := |s|;
      var needed := 5 + len;
      if pos + needed > MAX_EVENT_PAYLOAD {
        len := MAX_EVENT_PAYLOAD - pos - 5;
        if len <= 0 {
          overflow := true;
          return EIO;
        }
      }
      assert s[..|s|] == s;
      Append([EVENT_TYPE_STRING] + LittleEndian(len, 4) + s[..len], needed);
      return len;
    }

    method ListBegin() returns (code: int)
      requires Valid()
      modifies this, storage, count, list
      ensures Valid() && (State(), code) == L.ListBegin(old(State()))
    {
      if depth > MAX_DEPTH {
        overflow := true;
        return EOVERFLOW;
      }
      if pos + 2 > MAX_EVENT_PAYLOAD {
        overflow := true;
        return EIO;
      }
      count[depth] := count[depth] + 1;
      depth := depth + 1;
      if depth > MAX_DEPTH {
        overflow := true;
        return EOVERFLOW;
      }
      if overflow { return EIO; }
      Store(pos, [EVENT_TYPE_LIST, 0]);
      list[depth] := pos + 1;
      count[depth] := 0;
      pos := pos + 2;
      return 0;
    }

    method ListEnd() returns (code: int)
      requires Valid()
      modifies this, storage
      ensures Valid() && (State(), code) == L.ListEnd(old(State()))
    {
      if depth > MAX_DEPTH {
        overflow := true;
        depth := depth - 1;
        return EOVERFLOW;
      }
      if depth == 0 {
        overflow := true;
        return EOVERFLOW;
      }
      if list[depth] <= 0 {
        depth := depth - 1;
        overflow := true;
        return EOVERFLOW;
      }
      storage[list[depth]] := count[depth] % 256;
      depth := depth - 1;
      return 0;
    }

    /** The start and the length of the message within the buffer. */
    method ListBuffer() returns (start: int, len: int)
      requires Valid()
      modifies storage
      ensures Valid() && (State(), start, len) == L.ListBuffer(old(State()))
    {
      if depth > 0 { return 0, EIO; }
      storage[1] := count[0] % 256;
      start, len := 0, pos;
      if count[0] <= 1 {
        len := len - 2;
        start := 2;
      }
    }
  }

  class LogReader {
    const data: seq<byte>
    const count: array<nat>
    var pos: nat
    var depth: nat
    var stop: bool

    ghost function State(): Reader
      reads this, count
    {
      Reader(data, pos, count[..], depth, stop)
    }

    ghost predicate Valid()
      reads this, count
    {
      ReaderOk(State())
    }

    constructor (msg: seq<byte>)
      ensures Valid() && fresh(count)
      ensures State() == NewReader(msg)
    {
      data := if |msg| <= MAX_EVENT_PAYLOAD then msg else msg[..MAX_EVENT_PAYLOAD];
      count := new nat[MAX_DEPTH + 1](_ => 0);
      pos, depth, stop := 0, 0, false;
      new;
      assert count[..] == Repeat<nat>(0, MAX_DEPTH + 1);
    }

    /** The common end of reading an element that is not a list. */
    method Consume(end: nat)
      requires Valid() && depth <= MAX_DEPTH && end <= |data|
      modifies this, count
      ensures Valid() && State() == L.Consume(old(State()), end)
    {
      if count[depth] != 0 { count[depth] := count[depth] - 1; }
      if count[depth] == 0 { stop := true; }
      pos := end;
    }

    method ReadStop(peek: bool) returns (e: Elem)
      requires Valid() && stop && depth <= MAX_DEPTH
      modifies this
      ensures Valid() && e == NextStop(old(State())).0
      ensures State() == if peek then old(State()) else NextStop(old(State())).1
    {
      e := Elem(EVENT_TYPE_LIST_STOP, 0, Nothing, count[0] == 0 && (depth == 0 || (depth == 1 && count[1] == 0)));
      if !peek {
        if pos < |data| && data[pos] == EVENT_TYPE_LIST_STOP { pos := pos + 1; }
        if depth > 0 {
          depth := depth - 1;
          if count[depth] != 0 { stop := false; }
        } else {
          stop := false;
        }
      }
    }

    method ReadNumber(kind: Kind, peek: bool) returns (e: Elem)
      requires Valid() && depth <= MAX_DEPTH && pos < |data|
      modifies this, count
      ensures Valid() && e == NextNumber(old(State()), kind).0
      ensures State() == if peek then old(State()) else NextNumber(old(State()), kind).1
    {
      var end := pos + 1 + kind.Width();
      if end > |data| { return Elem(EVENT_TYPE_UNKNOWN, kind.Width(), Nothing, false); }
      e := Elem(kind.Code(), kind.Width(), Bits(FromLittleEndian(data[pos + 1..end])), depth == 0 && count[0] == 0);
      if !peek { Consume(end); }
    }

    method ReadString(peek: bool) returns (e: Elem)
      requires Valid() && depth <= MAX_DEPTH && pos < |data|
      modifies this, count
      ensures Valid() && e == NextString(old(State())).0
      ensures State() == if peek then old(State()) else NextString(old(State())).1
    {
      var start := pos + 5;
      if start > |data| { return Unknown(true); }
      var field := FromLittleEndian(data[pos + 1..start]);
      if 0xFFFF <= field < 0x8000_0000 { return Unknown(false); }
      var len := field % 0x1_0000;
      if start + len > |data| {
        len := |data| - start;
        if len == 0 { return Unknown(true); }
      }
      e := Elem(EVENT_TYPE_STRING, len, Bytes(data[start..start + len]), depth == 0 && count[0] == 0);
      if !peek { Consume(start + len); }
    }

    method ReadList(peek: bool) returns (e: Elem)
      requires Valid() && !stop && depth <= MAX_DEPTH && pos < |data|
      modifies this, count
      ensures Valid() && e == NextList(old(State())).0
      ensures State() == if peek then old(State()) else NextList(old(State())).1
    {
      if pos + 2 > |data| { return Unknown(true); }
      var n := data[pos + 1];
      e := Elem(EVENT_TYPE_LIST, 0, Nothing, depth >= MAX_DEPTH);
      if peek { return; }
      if count[depth] != 0 { count[depth] := count[depth] - 1; }
      stop := n == 0;
      depth := depth + 1;
      if depth <= MAX_DEPTH { count[depth] := SignExtend(n); }
      pos := pos + 2;
    }

    method ReadNewline(peek: bool) returns (e: Elem)
      requires Valid() && depth <= MAX_DEPTH && pos < |data|
      modifies this
      ensures Valid() && e == NextNewline(old(State())).0
      ensures State() == if peek then old(State()) else NextNewline(old(State())).1
    {
      if !peek { pos := pos + 1; }
      e := Unknown(depth == 0);
      if depth > 0 {
        e := Elem(EVENT_TYPE_LIST_STOP, 0, Nothing, false);
        if !peek { depth := depth - 1; }
      }
    }

    /** android_log_read_next_internal: a peek shows what the next read returns,
        and changes nothing. */
    method ReadNext(peek: bool) returns (e: Elem)
      requires Valid()
      modifies this, count
      ensures Valid() && e == Next(old(State())).0
      ensures State() == if peek then old(State()) else Next(old(State())).1
    {
      hide NextStop, NextNumber, NextString, NextList, NextNewline;
      if depth > MAX_DEPTH || count[depth] >= MAX_COUNT {
        if stop || (depth <= MAX_DEPTH && count[depth] == 0) {
          return Elem(EVENT_TYPE_LIST_STOP, 0, Nothing, true);
        }
        return Unknown(true);
      }
      if stop { e := ReadStop(peek); return; }
      if pos + 1 > |data| { return Unknown(true); }
      var t := data[pos];
      if t == EVENT_TYPE_INT { e := ReadNumber(KInt, peek); }
      else if t == EVENT_TYPE_FLOAT { e := ReadNumber(KFloat, peek); }
      else if t == EVENT_TYPE_LONG { e := ReadNumber(KLong, peek); }
      else if t == EVENT_TYPE_STRING { e := ReadString(peek); }
      else if t == EVENT_TYPE_LIST { e := ReadList(peek); }
      else if t == EVENT_TYPE_LIST_STOP { e := ReadNewline(peek); }
      else { e := Unknown(false); }
    }
  }
}
