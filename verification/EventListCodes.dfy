/** What each call of the event list writer reports, and what a string that is cut
    short leaves behind. */
module EventListCodes {
  import opened Common
  import opened EventList
  import opened EventListWriter

  // ------------------------------------------------------------------------ one call

  /** A call that cannot store anything sets the overflow flag and touches nothing
      else. */
  predicate OnlyOverflow(w: Writer, r: Writer) {
    r == w.(overflow := true)
  }

  /** A number is stored exactly if there is no overflow and room for all of it. */
  lemma NumberResult(w: Writer, kind: Kind, bits: nat)
    requires WriterOk(w)
    ensures var (r, code) := WriteNumber(w, kind, bits);
      if !w.overflow && w.pos + |Encode(Number(kind, bits))| <= MAX_EVENT_PAYLOAD
      then code == 0 && Added(w, r, Encode(Number(kind, bits)), 1)
      else code == EIO && OnlyOverflow(w, r)
  {
  }

  /** A string is stored, at least in part, exactly if there is no overflow and room
      for its header and a byte, or for all of it.  The result says how much of it is;
      that much is stored as a string of its own. */
  lemma StringResult(w: Writer, s: seq<byte>)
    requires WriterOk(w)
    ensures var (r, code) := WriteString(w, s);
      var left := MAX_EVENT_PAYLOAD - w.pos - 5;
      if !w.overflow && (|s| <= left || 0 < left) then
        && code == Min(|s|, left) >= 0
        && r.storage == Put(w.storage, w.pos, Encode(Text(s[..code])))
        && r.count == w.count[w.depth := w.count[w.depth] + 1]
        && r == w.(storage := r.storage, count := r.count, pos := w.pos + 5 + |s|)
        && (code < |s| <==> !Sound(r))
      else code == EIO && OnlyOverflow(w, r)
  {
    if |s| <= MAX_EVENT_PAYLOAD - w.pos - 5 { assert s[..|s|] == s; }
  }

  /** A list is opened exactly if there is no overflow, room for its header, and
      another level. */
  lemma BeginResult(w: Writer)
    requires WriterOk(w)
    ensures var (r, code) := ListBegin(w);
      && (code == 0 <==> !w.overflow && w.pos + 2 <= MAX_EVENT_PAYLOAD && w.depth < MAX_DEPTH)
      && (code == 0 <==> !r.overflow)
      && code == (if w.depth > MAX_DEPTH then EOVERFLOW
                  else if w.pos + 2 > MAX_EVENT_PAYLOAD then EIO
                  else if w.depth == MAX_DEPTH then EOVERFLOW
                  else if w.overflow then EIO else 0)
      && (code != 0 ==> r.storage == w.storage && r.pos == w.pos && r.list == w.list)
  {
  }

  /** A list is closed exactly if one is open whose header has been stored. */
  lemma EndResult(w: Writer)
    requires WriterOk(w)
    ensures var (r, code) := ListEnd(w);
      && (code == 0 <==> 0 < w.depth <= MAX_DEPTH && w.list[w.depth] > 0)
      && (code != 0 ==> code == EOVERFLOW && r == w.(overflow := true, depth := r.depth))
      && r.depth == (if w.depth == 0 then 0 else w.depth - 1)
      && r.pos == w.pos && r.list == w.list && r.count == w.count
      && (code == 0 ==>
            && r.overflow == w.overflow
            && r.storage[w.list[w.depth]] == w.count[w.depth] % 256
            && forall i :: 0 <= i < STORAGE_SIZE && i != w.list[w.depth] ==> r.storage[i] == w.storage[i])
  {
  }

  // ------------------------------------------------------------------ a tree of calls

  /** The results of the calls that log a tree, in order. */
  function Codes(w: Writer, x: Item): (codes: seq<int>)
    requires WriterOk(w)
    decreases x
  {
    match x
    case Number(kind, bits) => [WriteNumber(w, kind, bits).1]
    case Text(s) => [WriteString(w, s).1]
    case List(items) =>
      var (m, begun) := ListBegin(w);
      [begun] + AllCodes(m, items) + [ListEnd(WriteItems(m, items)).1]
  }

  function AllCodes(w: Writer, xs: seq<Item>): (codes: seq<int>)
    requires WriterOk(w)
    decreases xs
  {
    if xs == [] then [] else Codes(w, xs[0]) + AllCodes(WriteItem(w, xs[0]), xs[1..])
  }

  predicate NoError(codes: seq<int>) {
    forall i :: 0 <= i < |codes| ==> codes[i] >= 0
  }

  lemma NoErrorSplits(a: seq<int>, b: seq<int>)
    ensures NoError(a + b) <==> NoError(a) && NoError(b)
  {
    assert forall i :: 0 <= i < |b| ==> (a + b)[|a| + i] == b[i];
    assert forall i :: 0 <= i < |a| ==> (a + b)[i] == a[i];
  }

  /** Every open list has its header in the buffer. */
  ghost predicate HeadersKnown(w: Writer)
    requires WriterOk(w)
  {
    w.depth <= MAX_DEPTH && forall d :: 0 < d <= w.depth ==> w.list[d] > 0
  }

  /** Back at the same depth, with the same lists open. */
  ghost predicate BackAgain(w: Writer, r: Writer)
    requires WriterOk(w) && WriterOk(r)
  {
    r.depth == w.depth <= MAX_DEPTH && forall d :: 0 < d <= w.depth ==> r.list[d] == w.list[d]
  }

  lemma {:induction false} OverflowStays(w: Writer, x: Item)
    requires WriterOk(w) && w.overflow
    ensures WriteItem(w, x).overflow
    decreases x
  {
    if x.List? { OverflowsStay(ListBegin(w).0, x.items); }
  }

  lemma {:induction false} OverflowsStay(w: Writer, xs: seq<Item>)
    requires WriterOk(w) && w.overflow
    ensures WriteItems(w, xs).overflow
    decreases xs
  {
    hide WriteItem, WriterOk;
    if xs != [] {
      OverflowStays(w, xs[0]);
      OverflowsStay(WriteItem(w, xs[0]), xs[1..]);
    }
  }

  lemma OpensOne(w: Writer)
    requires WriterOk(w) && !w.overflow && HeadersKnown(w)
    ensures var (m, code) := ListBegin(w);
      && (code >= 0 <==> !m.overflow)
      && (!m.overflow ==> HeadersKnown(m) && m.depth == w.depth + 1
                          && forall d :: 0 < d <= w.depth ==> m.list[d] == w.list[d])
  {
  }

  lemma ClosesOne(w: Writer, m: Writer, e: Writer)
    requires WriterOk(w) && WriterOk(m) && WriterOk(e) && !e.overflow
    requires HeadersKnown(m) && m.depth == w.depth + 1 && BackAgain(m, e)
    requires forall d :: 0 < d <= w.depth ==> m.list[d] == w.list[d]
    ensures var (r, code) := ListEnd(e); code >= 0 && !r.overflow && BackAgain(w, r)
  {
  }

  /** The results tell the same as the context: some call reports an error exactly if
      the overflow flag is set in the end. */
  lemma {:induction false} ErrorsAreOverflow(w: Writer, x: Item)
    requires WriterOk(w) && !w.overflow && HeadersKnown(w)
    ensures var r := WriteItem(w, x);
      (NoError(Codes(w, x)) <==> !r.overflow) && (!r.overflow ==> BackAgain(w, r) && HeadersKnown(r))
    decreases x
  {
    match x
    case Number(kind, bits) =>
      NumberResult(w, kind, bits);
      OneCode(WriteNumber(w, kind, bits).1);
    case Text(s) =>
      StringResult(w, s);
      OneCode(WriteString(w, s).1);
    case List(items) =>
      var (m, begun) := ListBegin(w);
      var e := WriteItems(m, items);
      var ended := ListEnd(e).1;
      OpensOne(w);
      NoErrorSplits([begun] + AllCodes(m, items), [ended]);
      NoErrorSplits([begun], AllCodes(m, items));
      hide NoError, ListBegin, WriterOk;
      OneCode(begun);
      OneCode(ended);
      if m.overflow {
        OverflowsStay(m, items);
        EndResult(e);
      } else {
        AllErrorsAreOverflow(m, items);
        if e.overflow { EndResult(e); } else { ClosesOne(w, m, e); }
      }
  }

  lemma OneCode(code: int)
    ensures NoError([code]) <==> code >= 0
  {
    assert [code][0] == code;
  }

  lemma {:induction false} AllErrorsAreOverflow(w: Writer, xs: seq<Item>)
    requires WriterOk(w) && !w.overflow && HeadersKnown(w)
    ensures var r := WriteItems(w, xs);
      (NoError(AllCodes(w, xs)) <==> !r.overflow) && (!r.overflow ==> BackAgain(w, r) && HeadersKnown(r))
    decreases xs
  {
    hide WriteItem, WriterOk, Codes;
    if xs != [] {
      var m := WriteItem(w, xs[0]);
      ErrorsAreOverflow(w, xs[0]);
      NoErrorSplits(Codes(w, xs[0]), AllCodes(m, xs[1..]));
      hide NoError;
      if m.overflow { OverflowsStay(m, xs[1..]); } else { AllErrorsAreOverflow(m, xs[1..]); }
    }
  }

  /** So a caller that checks every result sees an overflow, but not a string that was
      cut: that shows in the position alone, or in a result less than the length. */
  lemma ResultsOrPosition(xs: seq<Item>)
    ensures var w := NewWriter(); var r := WriteItems(w, xs);
      && (NoError(AllCodes(w, xs)) <==> !r.overflow)
      && (NoError(AllCodes(w, xs)) && r.pos <= MAX_EVENT_PAYLOAD <==>
            2 + |EncodeAll(xs)| <= MAX_EVENT_PAYLOAD && Heights(xs) <= MAX_DEPTH)
  {
    AllErrorsAreOverflow(NewWriter(), xs);
    LossIsVisible(xs);
  }

  // -------------------------------------------------------------------- on the wire

  lemma Little1(a: byte, rest: nat, width: nat)
    ensures LittleEndian(a + 256 * rest, width + 1) == [a] + LittleEndian(rest, width)
  {
  }

  lemma Little4(a: byte, b: byte, c: byte, d: byte)
    ensures LittleEndian(a + 256 * (b + 256 * (c + 256 * d)), 4) == [a, b, c, d]
  {
    Little1(a, b + 256 * (c + 256 * d), 3);
    Little1(b, c + 256 * d, 2);
    Little1(c, d, 1);
    Little1(d, 0, 0);
    assert LittleEndian(0, 0) == [];
    hide LittleEndian;
  }

  lemma Little8(a: byte, b: byte, c: byte, d: byte, high: nat)
    ensures LittleEndian(a + 256 * (b + 256 * (c + 256 * (d + 256 * high))), 8)
         == [a, b, c, d] + LittleEndian(high, 4)
  {
    hide LittleEndian;
    Little1(a, b + 256 * (c + 256 * (d + 256 * high)), 7);
    Little1(b, c + 256 * (d + 256 * high), 6);
    Little1(c, d + 256 * high, 5);
    Little1(d, high, 4);
  }

  /** The bytes of one number or string, type code first, the least significant byte of
      a number next. */
  lemma ElementBytes(a: byte, b: byte, c: byte, d: byte, high: nat, s: seq<byte>)
    requires |s| < 256
    ensures var v := a + 256 * (b + 256 * (c + 256 * d));
      && Encode(Number(KInt, v)) == [0, a, b, c, d]
      && Encode(Number(KLong, a + 256 * (b + 256 * (c + 256 * (d + 256 * high)))))
         == [1, a, b, c, d] + LittleEndian(high, 4)
      && Encode(Number(KFloat, v)) == [4, a, b, c, d]
      && Encode(Text(s)) == [2, |s|, 0, 0, 0] + s
  {
    hide LittleEndian;
    Little4(a, b, c, d);
    Little8(a, b, c, d, high);
    Little4(|s|, 0, 0, 0);
  }

  /** And of a list: what it holds, one element after the other, behind their number. */
  lemma ListBytes(x: Item, y: Item)
    ensures Encode(List([x, y])) == [3, 2] + Encode(x) + Encode(y)
  {
    var two := [x, y];
    assert two[1..] == [y] && [y][1..] == [];
    assert EncodeAll(two) == Encode(x) + EncodeAll([y]);
    assert EncodeAll([y]) == Encode(y) + EncodeAll([]);
  }
}
