/** What list calls do to lists already closed once something has not fitted. */
module EventListOverflow {
  import opened Common
  import opened EventList
  import opened EventListWriter

  /** The calls for a list that holds one empty list. */
  function NestedPair(w: Writer): (r: Writer)
    requires WriterOk(w)
    ensures WriterOk(r)
  {
    WriteItem(w, List([List([])]))
  }

  lemma PairIsCalls(w: Writer)
    requires WriterOk(w)
    ensures NestedPair(w) == ListEnd(ListEnd(ListBegin(ListBegin(w).0).0).0).0
  {
    hide ListBegin, ListEnd, WriterOk;
    EmptyIsCalls(ListBegin(w).0);
    var w1 := ListBegin(w).0;
    var inner := [List([])];
    assert inner[1..] == [];
    assert WriteItems(w1, inner) == WriteItems(WriteItem(w1, inner[0]), []);
    assert WriteItem(w, List(inner)) == ListEnd(WriteItems(w1, inner)).0;
  }

  lemma EmptyIsCalls(w: Writer)
    requires WriterOk(w)
    ensures WriteItem(w, List([])) == ListEnd(ListBegin(w).0).0
  {
    hide ListBegin, ListEnd, WriterOk;
    assert WriteItems(ListBegin(w).0, []) == ListBegin(w).0;
  }

  /** The table entry for depth `d` is that of a list closed with its count. */
  predicate ClosedAt(w: Writer, d: nat)
    requires WriterOk(w) && d <= MAX_DEPTH
  {
    w.list[d] > 0 ==> w.list[d] < w.pos && w.storage[w.list[d]] == w.count[d] % 256
  }

  /** In an overflowed context ListBegin opens nothing: only the tables move. */
  lemma BeginAfterOverflow(w: Writer)
    requires WriterOk(w) && w.overflow && w.depth < MAX_DEPTH && w.pos + 2 <= MAX_EVENT_PAYLOAD
    ensures ListBegin(w).0 == w.(depth := w.depth + 1, count := w.count[w.depth := w.count[w.depth] + 1])
  {
  }

  /** But ListEnd writes through whatever entry the table still has. */
  lemma EndAfterOverflow(w: Writer)
    requires WriterOk(w) && w.overflow && 0 < w.depth <= MAX_DEPTH
    ensures var r := ListEnd(w).0;
            && r.depth == w.depth - 1 && r.pos == w.pos && r.overflow && r.list == w.list && r.count == w.count
            && r.storage == if w.list[w.depth] == 0 then w.storage
                            else w.storage[w.list[w.depth] := w.count[w.depth] % 256]
  {
  }

  /** ListEnd after ListBegin with overflow set: the stale entry is written. */
  lemma StaleEntryIsWritten(w: Writer)
    requires WriterOk(w) && w.overflow && w.depth < MAX_DEPTH && w.pos + 2 <= MAX_EVENT_PAYLOAD
    requires w.list[w.depth + 1] > 0
    ensures ListEnd(ListBegin(w).0).0.storage == w.storage[w.list[w.depth + 1] := w.count[w.depth + 1] % 256]
  {
    hide ListBegin, ListEnd;
    BeginAfterOverflow(w);
    EndAfterOverflow(ListBegin(w).0);
  }

  lemma PairAfterOverflow(w: Writer)
    requires WriterOk(w) && w.overflow && w.depth + 2 <= MAX_DEPTH && w.pos + 4 <= MAX_EVENT_PAYLOAD
    requires ClosedAt(w, w.depth + 1) && ClosedAt(w, w.depth + 2)
    ensures var d := w.depth + 1;
            NestedPair(w).storage ==
              if w.list[d] == 0 then w.storage else w.storage[w.list[d] := (w.count[d] + 1) % 256]
  {
    hide ListBegin, ListEnd, NestedPair;
    PairIsCalls(w);
    var d := w.depth + 1;
    var w1 := ListBegin(w).0;
    BeginAfterOverflow(w);
    var w2 := ListBegin(w1).0;
    BeginAfterOverflow(w1);
    EndAfterOverflow(w2);
    assert ListEnd(w2).0.storage == w.storage;
    EndAfterOverflow(ListEnd(w2).0);
  }

  lemma PairWithRoom(w: Writer)
    requires WriterOk(w) && !w.overflow && w.depth + 2 <= MAX_DEPTH && w.pos + 4 <= MAX_EVENT_PAYLOAD
    ensures NestedPair(w).storage[..w.pos] == w.storage[..w.pos]
  {
    var x := List([List([])]);
    PairSize();
    ItemAdded(w, x);
    hide WriteItem, Encode, Height;
    assert Put(w.storage, w.pos, Encode(x))[..w.pos] == w.storage[..w.pos];
  }

  lemma PairSize()
    ensures |Encode(List([List([])]))| == 4 && Height(List([List([])])) == 2
  {
    var inner := [List([])];
    assert inner[1..] == [];
    assert EncodeAll(inner) == Encode(inner[0]) + EncodeAll([]);
    assert Encode(List([])) == [EVENT_TYPE_LIST, 0] + EncodeAll([]);
    assert Height(List([])) == 1 + Heights([]);
    assert Heights(inner) == Max(Height(inner[0]), Heights([]));
  }

  /** What is in the buffer stays as it is exactly when nothing has overflowed, or no
      list was ever closed at that depth.  Otherwise the last one that was gets one
      more element in its header than it has. */
  lemma ClosedListsKept(w: Writer)
    requires WriterOk(w) && w.depth + 2 <= MAX_DEPTH && w.pos + 4 <= MAX_EVENT_PAYLOAD
    requires ClosedAt(w, w.depth + 1) && ClosedAt(w, w.depth + 2)
    ensures NestedPair(w).storage[..w.pos] == w.storage[..w.pos] <==> !w.overflow || w.list[w.depth + 1] == 0
  {
    hide NestedPair;
    if !w.overflow {
      PairWithRoom(w);
    } else {
      PairAfterOverflow(w);
      var at := w.list[w.depth + 1];
      if at > 0 {
        assert NestedPair(w).storage[..w.pos][at] != w.storage[..w.pos][at];
      }
    }
  }

  // ------------------------------------------------------------------- such a writer

  /** An empty list, a string that leaves five bytes, and a long, which needs nine. */
  function Overflowed(): (w: Writer)
    ensures WriterOk(w)
  {
    WriteItem(WriteItem(WriteItem(NewWriter(), List([])), Text(Repeat(0, 4050))), Number(KLong, 0))
  }

  lemma EmptyListWritten(w: Writer)
    requires WriterOk(w) && !w.overflow && Fits(w, 2, 1)
    ensures var r := WriteItem(w, List([]));
            && !r.overflow && r.depth == w.depth && r.pos == w.pos + 2
            && r.list == w.list[w.depth + 1 := w.pos + 1]
            && r.count[w.depth + 1] == 0 && r.storage[w.pos + 1] == 0
  {
    EmptyIsCalls(w);
  }

  lemma StringWritten(w: Writer, s: seq<byte>)
    requires WriterOk(w) && !w.overflow && Fits(w, 5 + |s|, 0)
    ensures var r := WriteItem(w, Text(s));
            && !r.overflow && r.depth == w.depth && r.pos == w.pos + 5 + |s| && r.list == w.list
            && (forall i :: w.depth < i <= MAX_DEPTH ==> r.count[i] == w.count[i])
            && (forall i :: 0 <= i < w.pos ==> r.storage[i] == w.storage[i])
  {
  }

  lemma LongRefused(w: Writer)
    requires WriterOk(w) && !w.overflow && w.pos + 9 > MAX_EVENT_PAYLOAD
    ensures WriteItem(w, Number(KLong, 0)) == w.(overflow := true)
  {
  }

  lemma OverflowedState()
    ensures var w := Overflowed();
            && w.overflow && w.depth == 0 && w.pos == 4059
            && w.list[1] == 3 && w.list[2] == 0 && w.count[1] == 0 && w.storage[3] == 0
  {
    hide WriteItem, WriterOk;
    var w := NewWriter();
    FreshFits([], 0);
    assert w.pos == 2 && w.depth == 0 && w.list[2] == 0;
    hide NewWriter;
    EmptyListWritten(w);
    var w1 := WriteItem(w, List([]));
    StringWritten(w1, Repeat(0, 4050));
    LongRefused(WriteItem(w1, Text(Repeat(0, 4050))));
  }

  /** The empty list at the start is then said to have one element. */
  lemma ClosedListIsChanged()
    ensures var w := Overflowed();
            w.storage[3] == 0 && NestedPair(w).storage[3] == 1
  {
    hide Overflowed, NestedPair;
    OverflowedState();
    PairAfterOverflow(Overflowed());
  }
}
