/** Reading back what the writer wrote: exactly the trees the reader gives back
    unchanged, and why the others are lost. */
module EventListReader {
  import opened Common
  import opened EventList
  import opened EventListWriter

  // ----------------------------------------------------------------------- numbers

  lemma {:induction false} LittleEndianRoundTrip(v: nat, width: nat)
    requires v < Pow256(width)
    ensures FromLittleEndian(LittleEndian(v, width)) == v
  {
    if width > 0 {
      LittleEndianRoundTrip(v / 256, width - 1);
      assert LittleEndian(v, width)[1..] == LittleEndian(v / 256, width - 1);
    }
  }

  lemma LengthFits(n: nat)
    requires n <= MAX_EVENT_PAYLOAD
    ensures n < Pow256(4)
  {
    assert Pow256(2) == 256 * Pow256(1) == 65536;
    assert Pow256(4) == 256 * Pow256(3) == 65536 * Pow256(2);
  }

  // ------------------------------------------------------------------ runs of reads

  lemma {:induction false} Split(r: Reader, a: nat, b: nat)
    requires ReaderOk(r)
    ensures Elems(r, a + b) == Elems(r, a) + Elems(After(r, a), b)
    ensures After(r, a + b) == After(After(r, a), b)
    decreases a
  {
    hide Next, ReaderOk;
    if a > 0 {
      Split(Next(r).1, a - 1, b);
    }
  }

  lemma One(r: Reader)
    requires ReaderOk(r)
    ensures Elems(r, 1) == [Next(r).0] && After(r, 1) == Next(r).1
  {
    hide Next, ReaderOk;
    assert Elems(r, 1) == [Next(r).0] + Elems(Next(r).1, 0);
    assert After(r, 1) == After(Next(r).1, 0);
  }

  // ----------------------------------------------------------------- the reader's state

  /** The next bytes to read are `s`. */
  predicate Ahead(r: Reader, s: seq<byte>) {
    r.pos + |s| <= |r.data| && r.data[r.pos..r.pos + |s|] == s
  }

  /** What follows is not a newline, the one byte a stop would swallow. */
  predicate Plain(r: Reader, size: nat) {
    r.pos + size < |r.data| ==> r.data[r.pos + size] != EVENT_TYPE_LIST_STOP
  }

  lemma AheadSplits(r: Reader, a: seq<byte>, b: seq<byte>)
    requires Ahead(r, a + b)
    ensures Ahead(r, a) && Ahead(r.(pos := r.pos + |a|), b)
  {
    var t := r.data[r.pos..r.pos + |a + b|];
    assert t[..|a|] == r.data[r.pos..r.pos + |a|];
    assert t[|a|..] == r.data[r.pos + |a|..r.pos + |a| + |b|];
  }

  lemma AheadMoves(r: Reader, h: Reader, k: nat, s: seq<byte>)
    requires Ahead(r.(pos := r.pos + k), s) && h.data == r.data && h.pos == r.pos + k
    requires Plain(r, k + |s|)
    ensures Ahead(h, s) && Plain(h, |s|)
  {
  }

  lemma PlainMoves(r: Reader, e: Reader, size: nat)
    requires Plain(r, size) && e.data == r.data && e.pos == r.pos + size
    ensures Plain(e, 0)
  {
  }

  lemma AheadByte(r: Reader, s: seq<byte>, k: nat)
    requires Ahead(r, s) && k < |s|
    ensures r.data[r.pos + k] == s[k]
  {
    assert r.data[r.pos..r.pos + |s|][k] == r.data[r.pos + k];
  }

  /** About to read an element: the bare root, or one of a list's. */
  predicate Expecting(r: Reader) {
    && ReaderOk(r)
    && !r.stop
    && r.depth <= MAX_DEPTH
    && r.count[0] == 0
    && (r.depth == 0 || 0 < r.count[r.depth] < MAX_COUNT)
  }

  function Less(c: nat): nat {
    if c == 0 then 0 else c - 1
  }

  /** One element of `size` bytes has been read, leaving the enclosing lists
      alone; the innermost one is due to stop when none is left of it. */
  predicate Passed(r: Reader, r2: Reader, size: nat) {
    && ReaderOk(r) && ReaderOk(r2)
    && r2.data == r.data
    && r2.pos == r.pos + size
    && r2.depth == r.depth <= MAX_DEPTH
    && r2.count[..r.depth] == r.count[..r.depth]
    && r2.count[r.depth] == Less(r.count[r.depth])
    && r2.stop == (r2.count[r.depth] == 0)
  }

  function Expected(r: Reader, x: Item): (ts: seq<Elem>)
    ensures |ts| == |Tokens(x)|
  {
    if r.depth == 0 then MarkLast(Tokens(x)) else Tokens(x)
  }

  // ---------------------------------------------------------------- one element at a time

  lemma ReadNumber(r: Reader, kind: Kind, bits: nat)
    requires Expecting(r) && bits < Pow256(kind.Width())
    requires Ahead(r, Encode(Number(kind, bits)))
    ensures Elems(r, 1) == Expected(r, Number(kind, bits))
    ensures Passed(r, After(r, 1), |Encode(Number(kind, bits))|)
  {
    var e := Encode(Number(kind, bits));
    AheadByte(r, e, 0);
    AheadSplits(r, [kind.Code()], LittleEndian(bits, kind.Width()));
    LittleEndianRoundTrip(bits, kind.Width());
    One(r);
    hide Pow256, FromLittleEndian, LittleEndian, Elems, After;
    assert r.data[r.pos + 1..r.pos + 1 + kind.Width()] == LittleEndian(bits, kind.Width());
    assert Next(r) == NextNumber(r, kind);
  }

  lemma SliceAhead(r: Reader, k: nat, s: seq<byte>)
    requires Ahead(r.(pos := r.pos + k), s)
    ensures r.pos + k + |s| <= |r.data| && r.data[r.pos + k..r.pos + k + |s|] == s
  {
  }

  lemma TextIsNext(r: Reader, s: seq<byte>)
    requires Expecting(r) && |s| <= MAX_EVENT_PAYLOAD && r.pos + 5 + |s| <= |r.data|
    requires r.data[r.pos] == EVENT_TYPE_STRING
    requires FromLittleEndian(r.data[r.pos + 1..r.pos + 5]) == |s|
    requires r.data[r.pos + 5..r.pos + 5 + |s|] == s
    ensures Next(r) == (Elem(EVENT_TYPE_STRING, |s|, Bytes(s), r.depth == 0), Consume(r, r.pos + 5 + |s|))
  {
    hide FromLittleEndian;
    assert Next(r) == NextString(r);
  }

  lemma ReadText(r: Reader, s: seq<byte>)
    requires Expecting(r)
    requires Ahead(r, Encode(Text(s)))
    ensures Elems(r, 1) == Expected(r, Text(s))
    ensures Passed(r, After(r, 1), |Encode(Text(s))|)
  {
    TextBytes(r, s);
    One(r);
    hide Ahead, Encode, Elems, After, FromLittleEndian, Next;
    TextIsNext(r, s);
    TextSize(s);
  }

  lemma TextSize(s: seq<byte>)
    ensures |Encode(Text(s))| == 5 + |s|
  {
  }

  lemma TextBytes(r: Reader, s: seq<byte>)
    requires ReaderOk(r) && Ahead(r, Encode(Text(s)))
    ensures |s| <= MAX_EVENT_PAYLOAD && r.pos + 5 + |s| <= |r.data|
    ensures r.data[r.pos] == EVENT_TYPE_STRING
    ensures FromLittleEndian(r.data[r.pos + 1..r.pos + 5]) == |s|
    ensures r.data[r.pos + 5..r.pos + 5 + |s|] == s
  {
    var size := LittleEndian(|s|, 4);
    var e := [EVENT_TYPE_STRING] + size + s;
    assert Encode(Text(s)) == e;
    AheadByte(r, e, 0);
    AheadSplits(r, [EVENT_TYPE_STRING] + size, s);
    AheadSplits(r, [EVENT_TYPE_STRING], size);
    SliceAhead(r, 1, size);
    SliceAhead(r, 5, s);
    LengthFits(|s|);
    LittleEndianRoundTrip(|s|, 4);
  }

  /** The header of a list of `n`: its elements come next, or its stop. */
  lemma ReadHeader(r: Reader, n: byte)
    requires Expecting(r) && Ahead(r, [EVENT_TYPE_LIST, n])
    ensures Elems(r, 1) == [Elem(EVENT_TYPE_LIST, 0, Nothing, r.depth >= MAX_DEPTH)]
    ensures r.depth < MAX_DEPTH ==>
      var h := After(r, 1);
      && ReaderOk(h) && h.data == r.data && h.pos == r.pos + 2 && h.depth == r.depth + 1
      && h.stop == (n == 0)
      && h.count[h.depth] == SignExtend(n)
      && h.count[..h.depth] == r.count[..h.depth][r.depth := Less(r.count[r.depth])]
  {
    AheadByte(r, [EVENT_TYPE_LIST, n], 0);
    AheadByte(r, [EVENT_TYPE_LIST, n], 1);
    One(r);
    assert Next(r) == NextList(r);
  }

  /** All elements of a nested list read: its stop closes it, and the enclosing
      list is one element further. */
  lemma ReadStop(r: Reader)
    requires ReaderOk(r) && r.stop && 1 <= r.depth <= MAX_DEPTH
    requires r.count[0] == 0 && r.count[r.depth] == 0
    requires Plain(r, 0)
    ensures Elems(r, 1) == [StopElem.(complete := r.depth == 1)]
    ensures After(r, 1) == r.(depth := r.depth - 1, stop := r.count[r.depth - 1] == 0)
  {
    One(r);
    assert Next(r) == NextStop(r);
  }

  // ------------------------------------------------------------------------- whole trees

  lemma EncodeStarts(x: Item)
    ensures |Encode(x)| > 0 && Encode(x)[0] != EVENT_TYPE_LIST_STOP
  {
  }

  lemma PlainStart(r: Reader, xs: seq<Item>)
    requires Ahead(r, EncodeAll(xs)) && Plain(r, |EncodeAll(xs)|)
    ensures Plain(r, 0)
  {
    if xs != [] {
      EncodeStarts(xs[0]);
      AheadByte(r, EncodeAll(xs), 0);
    }
  }

  /** Elements of the innermost list have been read: `m` of them, `size` bytes. */
  predicate PassedMany(r: Reader, r2: Reader, size: nat, m: nat) {
    && ReaderOk(r) && ReaderOk(r2)
    && r2.data == r.data
    && r2.pos == r.pos + size
    && r2.depth == r.depth <= MAX_DEPTH
    && r2.count[..r.depth] == r.count[..r.depth]
    && m <= r.count[r.depth]
    && r2.count[r.depth] == r.count[r.depth] - m
    && r2.stop == (r2.count[r.depth] == 0)
  }

  lemma PlainSplits(r: Reader, a: nat, b: nat)
    requires Plain(r, a + b)
    ensures Plain(r.(pos := r.pos + a), b)
  {
  }

  lemma PlainJoins(r: Reader, a: nat)
    requires Plain(r.(pos := r.pos + a), 0)
    ensures Plain(r, a)
  {
  }

  lemma EncodeHead(xs: seq<Item>)
    requires xs != []
    ensures EncodeAll(xs) == Encode(xs[0]) + EncodeAll(xs[1..])
  {
    hide Encode;
  }

  lemma HeadAhead(r: Reader, xs: seq<Item>)
    requires xs != [] && Ahead(r, EncodeAll(xs)) && Plain(r, |EncodeAll(xs)|)
    ensures Ahead(r, Encode(xs[0])) && Plain(r, |Encode(xs[0])|)
  {
    hide Encode, EncodeAll, Ahead, Plain;
    EncodeHead(xs);
    var a, b := Encode(xs[0]), EncodeAll(xs[1..]);
    AheadSplits(r, a, b);
    PlainSplits(r, |a|, |b|);
    PlainStart(r.(pos := r.pos + |a|), xs[1..]);
    PlainJoins(r, |a|);
  }

  lemma CountKept(r: Reader, r1: Reader, size: nat)
    requires Passed(r, r1, size) && 1 <= r.depth
    ensures r1.count[0] == r.count[0] && r1.data == r.data && r1.pos == r.pos + size
  {
    assert r1.count[0] == r1.count[..r.depth][0] == r.count[..r.depth][0];
  }

  lemma TailAhead(r: Reader, r1: Reader, xs: seq<Item>)
    requires xs != [] && Ahead(r, EncodeAll(xs)) && Plain(r, |EncodeAll(xs)|)
    requires Passed(r, r1, |Encode(xs[0])|) && 1 <= r.depth
    ensures Ahead(r1, EncodeAll(xs[1..])) && Plain(r1, |EncodeAll(xs[1..])|)
    ensures r1.count[0] == r.count[0]
  {
    hide Encode, EncodeAll, Ahead, Plain, Passed, ReaderOk;
    EncodeHead(xs);
    CountKept(r, r1, |Encode(xs[0])|);
    AheadSplits(r, Encode(xs[0]), EncodeAll(xs[1..]));
    AheadMoves(r, r1, |Encode(xs[0])|, EncodeAll(xs[1..]));
  }

  lemma {:induction false} ReadItem(r: Reader, x: Item)
    requires Expecting(r) && WellFormed(x) && Readable(x, r.depth)
    requires Ahead(r, Encode(x)) && Plain(r, |Encode(x)|)
    ensures Elems(r, |Tokens(x)|) == Expected(r, x)
    ensures Passed(r, After(r, |Tokens(x)|), |Encode(x)|)
    decreases x
  {
    match x
    case Number(kind, bits) => ReadNumber(r, kind, bits);
    case Text(s) => ReadText(r, s);
    case List(items) => ReadList(r, items);
  }

  lemma {:induction false} ReadList(r: Reader, items: seq<Item>)
    requires Expecting(r) && r.depth < MAX_DEPTH && |items| <= 127
    requires AllWellFormed(items) && AllReadable(items, r.depth + 1)
    requires Ahead(r, Encode(List(items))) && Plain(r, |Encode(List(items))|)
    ensures Elems(r, |Tokens(List(items))|) == Expected(r, List(items))
    ensures Passed(r, After(r, |Tokens(List(items))|), |Encode(List(items))|)
    decreases items, 1
  {
    hide Next, Elems, After, EncodeAll, AllWellFormed, AllReadable, TokensAll, Expected, Passed, Ahead, Plain;
    var n: byte := |items|;
    var h := After(r, 1);
    var m := |TokensAll(items)|;
    AheadSplits(r, [EVENT_TYPE_LIST, n], EncodeAll(items));
    ReadHeader(r, n);
    AheadMoves(r, h, 2, EncodeAll(items));
    assert h.count[0] == h.count[..h.depth][0] == 0;
    ReadItems(h, items);
    var e := After(h, m);
    assert e.count[0] == e.count[..e.depth][0] == 0;
    PlainMoves(r, e, 2 + |EncodeAll(items)|);
    ReadStop(e);
    ClosesList(r, h, e, |EncodeAll(items)|);
    hide *;
    Join(r, h, e, m);
    ListTokens(r, items);
  }

  lemma Join(r: Reader, h: Reader, e: Reader, m: nat)
    requires ReaderOk(r) && h == After(r, 1) && e == After(h, m)
    ensures Elems(r, 1 + m + 1) == Elems(r, 1) + Elems(h, m) + Elems(e, 1)
    ensures After(r, 1 + m + 1) == After(e, 1)
  {
    hide *;
    Split(r, 1, m);
    Split(r, 1 + m, 1);
  }

  lemma ListTokens(r: Reader, items: seq<Item>)
    ensures Expected(r, List(items)) ==
              [Elem(EVENT_TYPE_LIST, 0, Nothing, false)] + TokensAll(items) + [StopElem.(complete := r.depth == 0)]
    ensures |Tokens(List(items))| == 1 + |TokensAll(items)| + 1
  {
    hide TokensAll;
  }

  lemma ClosesList(r: Reader, h: Reader, e: Reader, size: nat)
    requires Expecting(r) && ReaderOk(h) && r.depth < MAX_DEPTH
    requires h.data == r.data && h.pos == r.pos + 2 && h.depth == r.depth + 1
    requires h.count[..h.depth] == r.count[..h.depth][r.depth := Less(r.count[r.depth])]
    requires PassedMany(h, e, size, h.count[h.depth])
    ensures Passed(r, e.(depth := e.depth - 1, stop := e.count[e.depth - 1] == 0), 2 + size)
  {
    assert e.count[r.depth] == e.count[..e.depth][r.depth] == h.count[..h.depth][r.depth];
    assert e.count[..r.depth] == e.count[..e.depth][..r.depth] == h.count[..h.depth][..r.depth]
        == r.count[..r.depth];
  }

  lemma {:induction false} ReadItems(r: Reader, xs: seq<Item>)
    requires ReaderOk(r) && 1 <= r.depth <= MAX_DEPTH && r.count[0] == 0
    requires |xs| <= r.count[r.depth] < MAX_COUNT
    requires r.stop == (r.count[r.depth] == 0)
    requires AllWellFormed(xs) && AllReadable(xs, r.depth)
    requires Ahead(r, EncodeAll(xs)) && Plain(r, |EncodeAll(xs)|)
    ensures Elems(r, |TokensAll(xs)|) == TokensAll(xs)
    ensures PassedMany(r, After(r, |TokensAll(xs)|), |EncodeAll(xs)|, |xs|)
    decreases xs, 0
  {
    hide Next, Encode, WellFormed, Readable, Tokens;
    if xs != [] {
      var k := |Tokens(xs[0])|;
      var r1 := After(r, k);
      assert TokensAll(xs) == Tokens(xs[0]) + TokensAll(xs[1..]);
      assert |EncodeAll(xs)| == |Encode(xs[0])| + |EncodeAll(xs[1..])|;
      hide Elems, After, Ahead, Plain, TokensAll, EncodeAll;
      HeadAhead(r, xs);
      ReadItem(r, xs[0]);
      TailAhead(r, r1, xs);
      ReadItems(r1, xs[1..]);
      Split(r, k, |TokensAll(xs[1..])|);
    }
  }
}
