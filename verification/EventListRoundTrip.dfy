/** The round trip of the event list, and exactly which trees survive it. */
module EventListRoundTrip {
  import opened Common
  import opened EventList
  import opened EventListWriter
  import opened EventListReader

  // ------------------------------------------------------------------ where reading fails

  lemma Halves<T>(a: seq<T>, b: seq<T>, ts: seq<T>)
    requires |a| <= |ts|
    ensures a + b == ts <==> a == ts[..|a|] && b == ts[|a|..]
  {
    assert (a + b)[..|a|] == a && (a + b)[|a|..] == b;
  }

  /** A first token that is wrong makes the whole reading wrong. */
  lemma PrefixDiffers(r: Reader, ts: seq<Elem>, k: nat)
    requires ReaderOk(r) && k <= |ts| && Elems(r, k) != ts[..k]
    ensures Elems(r, |ts|) != ts
  {
    Split(r, k, |ts| - k);
    hide *;
    Halves(Elems(r, k), Elems(After(r, k), |ts| - k), ts);
  }

  lemma SuffixDiffers(r: Reader, ts: seq<Elem>, k: nat)
    requires ReaderOk(r) && k <= |ts| && Elems(After(r, k), |ts| - k) != ts[k..]
    ensures Elems(r, |ts|) != ts
  {
    Split(r, k, |ts| - k);
    hide *;
    Halves(Elems(r, k), Elems(After(r, k), |ts| - k), ts);
  }

  lemma FirstToken(x: Item)
    ensures Tokens(x)[0].etype in
              {EVENT_TYPE_INT, EVENT_TYPE_LONG, EVENT_TYPE_FLOAT, EVENT_TYPE_STRING, EVENT_TYPE_LIST}
  {
  }

  lemma FirstOfAll(xs: seq<Item>)
    requires xs != []
    ensures |TokensAll(xs)| > 0
    ensures TokensAll(xs)[0].etype !in {EVENT_TYPE_UNKNOWN, EVENT_TYPE_LIST_STOP}
  {
    FirstToken(xs[0]);
  }

  /** A stop, or a list too long to be read, where an element should be. */
  lemma NoElement(r: Reader, xs: seq<Item>)
    requires ReaderOk(r) && xs != [] && r.depth <= MAX_DEPTH
    requires r.stop || r.count[r.depth] >= MAX_COUNT
    ensures Elems(r, |TokensAll(xs)|) != TokensAll(xs)
  {
    FirstOfAll(xs);
    One(r);
    hide TokensAll, Elems;
    PrefixDiffers(r, TokensAll(xs), 1);
  }

  /** The reader expects `count` elements, but the list has more, or one of them
      cannot be read. */
  lemma {:induction false} ItemsLost(r: Reader, xs: seq<Item>)
    requires Expecting(r) && r.depth >= 1
    requires r.count[r.depth] <= |xs|
    requires r.count[r.depth] < |xs| || !AllReadable(xs, r.depth)
    requires AllWellFormed(xs)
    requires Ahead(r, EncodeAll(xs)) && Plain(r, |EncodeAll(xs)|)
    ensures Elems(r, |TokensAll(xs)|) != TokensAll(xs)
    decreases xs, 0
  {
    hide Next, Encode, WellFormed, Readable, Tokens;
    var k := |Tokens(xs[0])|;
    var ts := TokensAll(xs);
    assert ts[..k] == Tokens(xs[0]) && ts[k..] == TokensAll(xs[1..]);
    hide Elems, After, TokensAll, EncodeAll, Ahead, Plain;
    HeadAhead(r, xs);
    if !Readable(xs[0], r.depth) {
      ItemLost(r, xs[0]);
      PrefixDiffers(r, ts, k);
    } else {
      ReadItem(r, xs[0]);
      var r1 := After(r, k);
      TailAhead(r, r1, xs);
      if r1.stop {
        NoElement(r1, xs[1..]);
      } else {
        ItemsLost(r1, xs[1..]);
      }
      SuffixDiffers(r, ts, k);
    }
  }

  lemma TokensOfList(r: Reader, items: seq<Item>)
    ensures var ts := Expected(r, List(items));
            && |ts| == 1 + |TokensAll(items)| + 1
            && ts[..1] == [Elem(EVENT_TYPE_LIST, 0, Nothing, false)]
            && ts[1..][..|TokensAll(items)|] == TokensAll(items)
  {
    var head := [Elem(EVENT_TYPE_LIST, 0, Nothing, false)];
    var all := TokensAll(items);
    hide TokensAll;
    assert Tokens(List(items)) == head + all + [StopElem];
    assert MarkLast(head + all + [StopElem]) == head + all + [StopElem.(complete := true)];
  }

  lemma {:induction false} ItemLost(r: Reader, x: Item)
    requires Expecting(r) && WellFormed(x) && !Readable(x, r.depth)
    requires Ahead(r, Encode(x)) && Plain(r, |Encode(x)|)
    ensures Elems(r, |Tokens(x)|) != Expected(r, x)
    decreases x
  {
    ListLost(r, x.items);
  }

  lemma {:induction false} ListLost(r: Reader, items: seq<Item>)
    requires Expecting(r) && AllWellFormed(items)
    requires |items| > 127 || r.depth >= MAX_DEPTH || !AllReadable(items, r.depth + 1)
    requires Ahead(r, Encode(List(items))) && Plain(r, |Encode(List(items))|)
    ensures Elems(r, |Tokens(List(items))|) != Expected(r, List(items))
    decreases items, 1
  {
    hide Next, Elems, After, EncodeAll, AllWellFormed, AllReadable, TokensAll, Expected;
    var n: byte := |items| % 256;
    var ts := Expected(r, List(items));
    AheadSplits(r, [EVENT_TYPE_LIST, n], EncodeAll(items));
    ReadHeader(r, n);
    TokensOfList(r, items);
    if r.depth >= MAX_DEPTH {
      PrefixDiffers(r, ts, 1);
    } else {
      var h := After(r, 1);
      assert h.count[0] == h.count[..h.depth][0] == 0;
      NoneReadable(items, h.depth);
      if n == 0 || n >= 128 {
        NoElement(h, items);
      } else {
        ItemsLost(h, items);
      }
      PrefixDiffers(h, ts[1..], |TokensAll(items)|);
      SuffixDiffers(r, ts, 1);
    }
  }

  lemma NoneReadable(items: seq<Item>, depth: nat)
    ensures items == [] ==> AllReadable(items, depth)
  {
  }

  // --------------------------------------------------------------------------- the theorem

  lemma Wellformed(xs: seq<Item>)
    requires |xs| > 0 && AllWellFormed(xs)
    ensures WellFormed(Root(xs))
  {
  }

  /** Whatever was logged without loss, the reader gives back its preorder, each
      list closed by a stop, `complete` on the last element and on no other,
      exactly when no list has more than 127 elements and none lies deeper than
      the reader counts. */
  lemma RoundTrip(xs: seq<Item>)
    requires |xs| > 0 && AllWellFormed(xs)
    requires Sound(WriteItems(NewWriter(), xs))
    ensures var want := MarkLast(Tokens(Root(xs)));
            Elems(NewReader(Message(xs)), |want|) == want <==> Readable(Root(xs), 0)
  {
    hide WriteItems, Encode, Tokens, Elems, After, Readable, WellFormed, AllWellFormed, Sound, Message,
      WriterOk, Repeat;
    MessageIsEncoding(xs);
    Wellformed(xs);
    MessageFits(xs);
    var r := NewReader(Message(xs));
    StartsReading(Message(xs));
    if Readable(Root(xs), 0) { ReadItem(r, Root(xs)); } else { ItemLost(r, Root(xs)); }
  }

  lemma MessageFits(xs: seq<Item>)
    requires Sound(WriteItems(NewWriter(), xs))
    ensures |Message(xs)| <= MAX_EVENT_PAYLOAD
  {
    hide WriteItems, NewWriter, WriterOk;
  }

  lemma StartsReading(msg: seq<byte>)
    requires |msg| <= MAX_EVENT_PAYLOAD
    ensures var r := NewReader(msg);
            r.data == msg && r.depth == 0 && Expecting(r) && Ahead(r, msg) && Plain(r, |msg|)
  {
  }

  /** A context with nothing in it reads as one unknown element, complete. */
  lemma EmptyMessage()
    ensures Sound(WriteItems(NewWriter(), []))
    ensures Elems(NewReader(Message([])), 1) == [Unknown(true)]
  {
    LossIsVisible([]);
    MessageIsEncoding([]);
    hide Message, WriteItems, WriterOk;
    One(NewReader(Message([])));
  }

  // ------------------------------------------------------------------ a list that is lost

  function Repeated(n: nat): (xs: seq<Item>)
    ensures |xs| == n
  {
    if n == 0 then [] else [Number(KInt, 0)] + Repeated(n - 1)
  }

  lemma {:induction false} RepeatedSize(n: nat)
    ensures |EncodeAll(Repeated(n))| == 5 * n && Heights(Repeated(n)) == 0
    ensures AllWellFormed(Repeated(n))
  {
    if n > 0 {
      assert Repeated(n)[1..] == Repeated(n - 1);
      assert Pow256(4) > 0;
      RepeatedSize(n - 1);
    }
  }

  /** 128 ints are logged without loss and without a word, and do not come back. */
  lemma LongListIsLost()
    ensures var xs := Repeated(128);
            && Sound(WriteItems(NewWriter(), xs))
            && var want := MarkLast(Tokens(List(xs)));
               Elems(NewReader(Message(xs)), |want|) != want
  {
    hide NewWriter, WriteItems, EncodeAll, Heights, Elems, Tokens, Repeated, WriterOk, Message, AllWellFormed;
    var xs := Repeated(128);
    RepeatedSize(128);
    LossIsVisible(xs);
    RoundTrip(xs);
  }
}
