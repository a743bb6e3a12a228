/** What the writer leaves in its buffer: exactly the encoding of the tree, or a
    context that shows it did not fit. */
module EventListWriter {
  import opened Common
  import opened EventList

  lemma PutTwice(s: seq<byte>, at: nat, a: seq<byte>, b: seq<byte>)
    requires at + |a| + |b| <= |s|
    ensures Put(Put(s, at, a), at + |a|, b) == Put(s, at, a + b)
  {
  }

  lemma PatchHeader(s: seq<byte>, at: nat, n: byte, body: seq<byte>)
    requires at + 2 + |body| <= |s|
    ensures Put(s, at, [EVENT_TYPE_LIST, 0] + body)[at + 1 := n] == Put(s, at, [EVENT_TYPE_LIST, n] + body)
  {
  }

  /** `data` has been added at the end of the buffer and `k` to the innermost count. */
  ghost predicate Added(w: Writer, r: Writer, data: seq<byte>, k: nat) {
    && WriterOk(w) && WriterOk(r)
    && w.depth <= MAX_DEPTH
    && !r.overflow
    && r.depth == w.depth
    && w.pos + |data| <= MAX_EVENT_PAYLOAD
    && r.pos == w.pos + |data|
    && r.storage == Put(w.storage, w.pos, data)
    && r.count[w.depth] == w.count[w.depth] + k
    && r.count[..w.depth] == w.count[..w.depth]
    && r.list[..w.depth + 1] == w.list[..w.depth + 1]
  }

  lemma AddedTwice(w: Writer, m: Writer, r: Writer, a: seq<byte>, b: seq<byte>, j: nat, k: nat)
    requires Added(w, m, a, j) && Added(m, r, b, k)
    ensures Added(w, r, a + b, j + k)
  {
    PutTwice(w.storage, w.pos, a, b);
  }

  predicate Fits(w: Writer, size: nat, height: nat) {
    w.pos + size <= MAX_EVENT_PAYLOAD && w.depth + height <= MAX_DEPTH
  }

  lemma NumberAdded(w: Writer, kind: Kind, bits: nat)
    requires WriterOk(w) && !w.overflow && Fits(w, |Encode(Number(kind, bits))|, 0)
    ensures Added(w, WriteNumber(w, kind, bits).0, Encode(Number(kind, bits)), 1)
  {
  }

  lemma StringAdded(w: Writer, s: seq<byte>)
    requires WriterOk(w) && !w.overflow && Fits(w, |Encode(Text(s))|, 0)
    ensures Added(w, WriteString(w, s).0, Encode(Text(s)), 1)
  {
  }

  lemma EmptyAdded(w: Writer)
    requires WriterOk(w) && !w.overflow && Fits(w, 0, 0)
    ensures Added(w, w, [], 0)
  {
  }

  lemma BeginList(w: Writer)
    requires WriterOk(w) && !w.overflow && Fits(w, 2, 1)
    ensures var m := ListBegin(w).0;
            && !m.overflow && m.depth == w.depth + 1 && m.pos == w.pos + 2
            && m.storage == Put(w.storage, w.pos, [EVENT_TYPE_LIST, 0])
            && m.list[m.depth] == w.pos + 1 && m.count[m.depth] == 0
            && m.count[..m.depth] == w.count[..m.depth][w.depth := w.count[w.depth] + 1]
            && m.list[..m.depth] == w.list[..m.depth]
  {
  }

  lemma ListAdded(w: Writer, body: seq<byte>, n: nat, e: Writer)
    requires WriterOk(w) && !w.overflow && Fits(w, 2 + |body|, 1)
    requires Added(ListBegin(w).0, e, body, n)
    ensures Added(w, ListEnd(e).0, [EVENT_TYPE_LIST, n % 256] + body, 1)
  {
    BeginList(w);
    var m := ListBegin(w).0;
    var r := ListEnd(e).0;
    PutTwice(w.storage, w.pos, [EVENT_TYPE_LIST, 0], body);
    PatchHeader(w.storage, w.pos, n % 256, body);
    assert e.list[e.depth] == e.list[..e.depth + 1][e.depth] == m.list[..m.depth + 1][m.depth];
    assert e.count[w.depth] == e.count[..e.depth][w.depth] == m.count[..m.depth][w.depth];
    assert r.count[..w.depth] == e.count[..e.depth][..w.depth] == w.count[..w.depth];
    assert r.list[..w.depth + 1] == e.list[..e.depth + 1][..w.depth + 1] == m.list[..m.depth + 1][..m.depth]
        == w.list[..w.depth + 1];
  }

  /** A tree that fits is stored exactly as it is encoded, in place, and counts
      as one element of the enclosing list. */
  lemma {:induction false} ItemAdded(w: Writer, x: Item)
    requires WriterOk(w) && !w.overflow && Fits(w, |Encode(x)|, Height(x))
    ensures Added(w, WriteItem(w, x), Encode(x), 1)
    decreases x
  {
    hide Added, WriterOk, ListBegin, ListEnd, WriteNumber, WriteString;
    match x
    case Number(kind, bits) => NumberAdded(w, kind, bits);
    case Text(s) => StringAdded(w, s);
    case List(items) =>
      BeginList(w);
      ItemsAdded(ListBegin(w).0, items);
      ListAdded(w, EncodeAll(items), |items|, WriteItems(ListBegin(w).0, items));
  }

  lemma AddedLeaves(w: Writer, r: Writer, data: seq<byte>, k: nat)
    requires Added(w, r, data, k)
    ensures WriterOk(r) && !r.overflow && r.depth == w.depth && r.pos == w.pos + |data|
  {
  }

  lemma {:induction false} ItemsAdded(w: Writer, xs: seq<Item>)
    requires WriterOk(w) && !w.overflow && Fits(w, |EncodeAll(xs)|, Heights(xs))
    ensures Added(w, WriteItems(w, xs), EncodeAll(xs), |xs|)
    decreases xs
  {
    hide Added, WriterOk, WriteItem, Encode, Height;
    if xs == [] {
      EmptyAdded(w);
    } else {
      var m := WriteItem(w, xs[0]);
      ItemAdded(w, xs[0]);
      AddedLeaves(w, m, Encode(xs[0]), 1);
      ItemsAdded(m, xs[1..]);
      AddedTwice(w, m, WriteItems(m, xs[1..]), Encode(xs[0]), EncodeAll(xs[1..]), 1, |xs| - 1);
    }
  }

  // ----------------------------------------------------- the context tells on a misfit

  /** Nothing was lost: no overflow, and `pos` still inside the payload. */
  predicate Sound(w: Writer) {
    !w.overflow && w.pos <= MAX_EVENT_PAYLOAD
  }

  lemma {:induction false} WriteItemKeepsLoss(w: Writer, x: Item)
    requires WriterOk(w) && Sound(WriteItem(w, x))
    ensures Sound(w) && w.pos <= WriteItem(w, x).pos
    decreases x
  {
    if x.List? {
      WriteItemsKeepLoss(ListBegin(w).0, x.items);
    }
  }

  lemma {:induction false} WriteItemsKeepLoss(w: Writer, xs: seq<Item>)
    requires WriterOk(w) && Sound(WriteItems(w, xs))
    ensures Sound(w) && w.pos <= WriteItems(w, xs).pos
    decreases xs
  {
    hide WriteItem, WriterOk;
    if xs != [] {
      WriteItemsKeepLoss(WriteItem(w, xs[0]), xs[1..]);
      WriteItemKeepsLoss(w, xs[0]);
    }
  }

  lemma {:induction false} SoundItemFits(w: Writer, x: Item)
    requires WriterOk(w) && Sound(WriteItem(w, x))
    ensures Fits(w, |Encode(x)|, Height(x))
    decreases x
  {
    hide Put;
    WriteItemKeepsLoss(w, x);
    if x.List? {
      var m := ListBegin(w).0;
      WriteItemsKeepLoss(m, x.items);
      SoundItemsFit(m, x.items);
    }
  }

  lemma {:induction false} SoundItemsFit(w: Writer, xs: seq<Item>)
    requires WriterOk(w) && Sound(WriteItems(w, xs))
    ensures Fits(w, |EncodeAll(xs)|, Heights(xs))
    decreases xs
  {
    hide WriteItem, WriterOk, Encode, Height, Added;
    WriteItemsKeepLoss(w, xs);
    if xs == [] {
      SoundDepth(w);
    } else {
      var m := WriteItem(w, xs[0]);
      WriteItemsKeepLoss(m, xs[1..]);
      SoundItemFits(w, xs[0]);
      ItemAdded(w, xs[0]);
      AddedLeaves(w, m, Encode(xs[0]), 1);
      SoundItemsFit(m, xs[1..]);
    }
  }

  lemma SoundDepth(w: Writer)
    requires WriterOk(w) && Sound(w)
    ensures Fits(w, 0, 0)
  {
  }

  /** A caller can tell: the context shows no overflow and a position inside the
      payload exactly when the whole tree fitted, nesting and length alike. */
  lemma LossIsVisible(xs: seq<Item>)
    ensures Sound(WriteItems(NewWriter(), xs))
       <==> 2 + |EncodeAll(xs)| <= MAX_EVENT_PAYLOAD && Heights(xs) <= MAX_DEPTH
  {
    var w := NewWriter();
    if Sound(WriteItems(w, xs)) { SoundItemsFit(w, xs); }
    if 2 + |EncodeAll(xs)| <= MAX_EVENT_PAYLOAD && Heights(xs) <= MAX_DEPTH { ItemsAdded(w, xs); }
  }

  // -------------------------------------------------------------------- the message

  /** The bytes android_log_write_list_buffer hands out. */
  function Handed(w: Writer): seq<byte>
    requires WriterOk(w) && Sound(w)
  {
    var (w1, start, len) := ListBuffer(w);
    if 0 <= start <= start + len <= |w1.storage| then w1.storage[start..start + len] else []
  }

  lemma HandedBytes(r: Writer, body: seq<byte>, n: nat)
    requires Added(NewWriter(), r, body, n)
    ensures Sound(r) && Handed(r) == if n <= 1 then body else [EVENT_TYPE_LIST, n % 256] + body
  {
    var w := NewWriter();
    assert w.storage[0] == EVENT_TYPE_LIST;
    hide NewWriter;
    assert r.storage[1 := n % 256][2..r.pos] == body;
    assert r.storage[1 := n % 256][..r.pos] == [EVENT_TYPE_LIST, n % 256] + body;
  }

  /** The message that logging `xs` produces. */
  function Message(xs: seq<Item>): seq<byte>
    requires Sound(WriteItems(NewWriter(), xs))
  {
    Handed(WriteItems(NewWriter(), xs))
  }

  /** Two elements or more go out as a list; a single one goes out bare. */
  lemma MessageIsEncoding(xs: seq<Item>)
    requires Sound(WriteItems(NewWriter(), xs))
    ensures Message(xs) == if |xs| == 0 then [] else Encode(Root(xs))
  {
    hide WriteItems, Heights, Encode, Added, NewWriter, Handed, Fits, Sound, Root, WriterOk;
    var w := NewWriter();
    LossIsVisible(xs);
    FreshFits(EncodeAll(xs), Heights(xs));
    ItemsAdded(w, xs);
    HandedBytes(WriteItems(w, xs), EncodeAll(xs), |xs|);
    RootEncoded(xs);
  }

  lemma FreshFits(body: seq<byte>, height: nat)
    ensures var w := NewWriter();
            && !w.overflow
            && (2 + |body| <= MAX_EVENT_PAYLOAD && height <= MAX_DEPTH ==> Fits(w, |body|, height))
  {
  }

  lemma RootEncoded(xs: seq<Item>)
    ensures (if |xs| <= 1 then EncodeAll(xs) else [EVENT_TYPE_LIST, |xs| % 256] + EncodeAll(xs))
         == (if |xs| == 0 then [] else Encode(Root(xs)))
  {
    if |xs| == 1 {
      assert xs[1..] == [];
    }
  }
}
