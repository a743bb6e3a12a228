/** The binary event list of liblog: the writer and the reader as functions on
    their contexts, step for step, and the tree they are meant to carry.

    The type codes and ANDROID_MAX_LIST_NEST_DEPTH are those of liblog's public
    headers, LOGGER_ENTRY_MAX_PAYLOAD is 4068.  Numbers are bit patterns: an int, a
    long or a float is the 4 or 8 bytes the machine stores for it. */
module EventList {
  import opened Common

  const MAX_EVENT_PAYLOAD: nat := 4064
  const STORAGE_SIZE: nat := 4068
  const MAX_DEPTH: nat := 8
  const MAX_COUNT: nat := 2032

  const EVENT_TYPE_INT: byte := 0
  const EVENT_TYPE_LONG: byte := 1
  const EVENT_TYPE_STRING: byte := 2
  const EVENT_TYPE_LIST: byte := 3
  const EVENT_TYPE_FLOAT: byte := 4
  const EVENT_TYPE_LIST_STOP: byte := 10
  const EVENT_TYPE_UNKNOWN: byte := 63

  const EIO: int := -5
  const EOVERFLOW: int := -75

  // ------------------------------------------------------------- what is logged

  datatype Kind = KInt | KLong | KFloat {
    function Code(): byte {
      match this
      case KInt => EVENT_TYPE_INT
      case KLong => EVENT_TYPE_LONG
      case KFloat => EVENT_TYPE_FLOAT
    }

    function Width(): nat {
      if KLong? then 8 else 4
    }
  }

  datatype Item = Number(kind: Kind, bits: nat) | Text(text: seq<byte>) | List(items: seq<Item>)

  function Pow256(k: nat): nat {
    if k == 0 then 1 else 256 * Pow256(k - 1)
  }

  /** Every number fits its field. */
  predicate WellFormed(x: Item)
    decreases x
  {
    match x
    case Number(kind, bits) => bits < Pow256(kind.Width())
    case Text(_) => true
    case List(items) => AllWellFormed(items)
  }

  predicate AllWellFormed(xs: seq<Item>)
    decreases xs
  {
    xs == [] || (WellFormed(xs[0]) && AllWellFormed(xs[1..]))
  }

  function Height(x: Item): nat
    decreases x
  {
    match x
    case List(items) => 1 + Heights(items)
    case _ => 0
  }

  function Heights(xs: seq<Item>): nat
    decreases xs
  {
    if xs == [] then 0 else Max(Height(xs[0]), Heights(xs[1..]))
  }

  // ------------------------------------------------------------------ the format

  function LittleEndian(v: nat, width: nat): (s: seq<byte>)
    ensures |s| == width
  {
    if width == 0 then [] else [v % 256] + LittleEndian(v / 256, width - 1)
  }

  function FromLittleEndian(s: seq<byte>): nat {
    if s == [] then 0 else s[0] + 256 * FromLittleEndian(s[1..])
  }

  function Encode(x: Item): seq<byte>
    decreases x
  {
    match x
    case Number(kind, bits) => [kind.Code()] + LittleEndian(bits, kind.Width())
    case Text(s) => [EVENT_TYPE_STRING] + LittleEndian(|s|, 4) + s
    case List(items) => [EVENT_TYPE_LIST, |items| % 256] + EncodeAll(items)
  }

  function EncodeAll(xs: seq<Item>): seq<byte>
    decreases xs
  {
    if xs == [] then [] else Encode(xs[0]) + EncodeAll(xs[1..])
  }

  // ------------------------------------------------------------------ the writer

  datatype Writer = Writer(
    storage: seq<byte>,
    pos: nat,
    count: seq<nat>,
    list: seq<nat>,
    depth: nat,
    overflow: bool)

  function Put(s: seq<byte>, at: nat, data: seq<byte>): seq<byte>
    requires at + |data| <= |s|
  {
    s[..at] + data + s[at + |data|..]
  }

  /** What create_android_logger sets up, and all that keeps every index of the
      write functions in range. */
  predicate WriterOk(w: Writer) {
    && |w.storage| == STORAGE_SIZE
    && |w.count| == |w.list| == MAX_DEPTH + 1
    && w.depth <= MAX_DEPTH + 1
    && (w.depth > MAX_DEPTH ==> w.overflow)
    && 2 <= w.pos
    && (forall i :: 0 <= i <= MAX_DEPTH ==> w.list[i] <= MAX_EVENT_PAYLOAD)
  }

  function NewWriter(): (w: Writer)
    ensures WriterOk(w)
  {
    var none := Repeat<nat>(0, MAX_DEPTH + 1);
    Writer(Repeat<byte>(0, STORAGE_SIZE)[0 := EVENT_TYPE_LIST], 2, none, none[0 := 1], 0, false)
  }

  /** One more element in the innermost open list, stored at `pos`. */
  function Append(w: Writer, data: seq<byte>, needed: nat): (r: Writer)
    requires WriterOk(w) && w.depth <= MAX_DEPTH && w.pos + |data| <= MAX_EVENT_PAYLOAD
    ensures WriterOk(r)
  {
    w.(storage := Put(w.storage, w.pos, data),
       count := w.count[w.depth := w.count[w.depth] + 1],
       pos := w.pos + needed)
  }

  function WriteNumber(w: Writer, kind: Kind, bits: nat): (r: (Writer, int))
    requires WriterOk(w)
    ensures WriterOk(r.0)
  {
    if w.overflow then (w, EIO)
    else if w.pos + 1 + kind.Width() > MAX_EVENT_PAYLOAD then (w.(overflow := true), EIO)
    else (Append(w, [kind.Code()] + LittleEndian(bits, kind.Width()), 1 + kind.Width()), 0)
  }

  /** A string that does not fit is cut to what is left, but `pos` still moves by
      the whole length. */
  function WriteString(w: Writer, s: seq<byte>): (r: (Writer, int))
    requires WriterOk(w)
    ensures WriterOk(r.0)
  {
    if w.overflow then (w, EIO)
    else if w.pos + 5 + |s| > MAX_EVENT_PAYLOAD then
      var len := MAX_EVENT_PAYLOAD - w.pos - 5;
      if len <= 0 then (w.(overflow := true), EIO)
      else (Append(w, [EVENT_TYPE_STRING] + LittleEndian(len, 4) + s[..len], 5 + |s|), len)
    else (Append(w, [EVENT_TYPE_STRING] + LittleEndian(|s|, 4) + s, 5 + |s|), |s|)
  }

  function ListBegin(w: Writer): (r: (Writer, int))
    requires WriterOk(w)
    ensures WriterOk(r.0)
  {
    if w.depth > MAX_DEPTH then (w.(overflow := true), EOVERFLOW)
    else if w.pos + 2 > MAX_EVENT_PAYLOAD then (w.(overflow := true), EIO)
    else
      var d := w.depth + 1;
      var w1 := w.(count := w.count[w.depth := w.count[w.depth] + 1], depth := d);
      if d > MAX_DEPTH then (w1.(overflow := true), EOVERFLOW)
      else if w.overflow then (w1, EIO)
      else
        (w1.(storage := Put(w.storage, w.pos, [EVENT_TYPE_LIST, 0]),
             list := w.list[d := w.pos + 1],
             count := w1.count[d := 0],
             pos := w.pos + 2), 0)
  }

  function ListEnd(w: Writer): (r: (Writer, int))
    requires WriterOk(w)
    ensures WriterOk(r.0)
  {
    if w.depth > MAX_DEPTH then (w.(overflow := true, depth := w.depth - 1), EOVERFLOW)
    else if w.depth == 0 then (w.(overflow := true), EOVERFLOW)
    else if w.list[w.depth] == 0 then (w.(overflow := true, depth := w.depth - 1), EOVERFLOW)
    else (w.(storage := w.storage[w.list[w.depth] := w.count[w.depth] % 256], depth := w.depth - 1), 0)
  }

  /** android_log_write_list_buffer: where the message starts, and its length. */
  function ListBuffer(w: Writer): (r: (Writer, int, int))
    requires WriterOk(w)
    ensures WriterOk(r.0)
  {
    if w.depth > 0 then (w, 0, EIO)
    else
      var w1 := w.(storage := w.storage[1 := w.count[0] % 256]);
      if w.count[0] <= 1 then (w1, 2, w.pos - 2) else (w1, 0, w.pos)
  }

  /** The calls a client makes to log a tree. */
  function WriteItem(w: Writer, x: Item): (r: Writer)
    requires WriterOk(w)
    ensures WriterOk(r)
    decreases x
  {
    match x
    case Number(kind, bits) => WriteNumber(w, kind, bits).0
    case Text(s) => WriteString(w, s).0
    case List(items) => ListEnd(WriteItems(ListBegin(w).0, items)).0
  }

  function WriteItems(w: Writer, xs: seq<Item>): (r: Writer)
    requires WriterOk(w)
    ensures WriterOk(r)
    decreases xs
  {
    if xs == [] then w else WriteItems(WriteItem(w, xs[0]), xs[1..])
  }

  // ------------------------------------------------------------------ the reader

  datatype Value = Nothing | Bits(bits: nat) | Bytes(bytes: seq<byte>)

  datatype Elem = Elem(etype: byte, len: nat, value: Value, complete: bool)

  datatype Reader = Reader(
    data: seq<byte>,
    pos: nat,
    count: seq<nat>,
    depth: nat,
    stop: bool)

  predicate ReaderOk(r: Reader) {
    && |r.data| <= MAX_EVENT_PAYLOAD
    && r.pos <= |r.data|
    && |r.count| == MAX_DEPTH + 1
    && r.depth <= MAX_DEPTH + 1
  }

  function NewReader(msg: seq<byte>): (r: Reader)
    ensures ReaderOk(r)
  {
    Reader(if |msg| <= MAX_EVENT_PAYLOAD then msg else msg[..MAX_EVENT_PAYLOAD], 0,
           Repeat(0, MAX_DEPTH + 1), 0, false)
  }

  /** An int8_t turned into an unsigned. */
  function SignExtend(b: byte): nat {
    if b < 128 then b else 0x1_0000_0000 - 256 + b
  }

  function Unknown(complete: bool): Elem {
    Elem(EVENT_TYPE_UNKNOWN, 0, Nothing, complete)
  }

  /** One element of the innermost list has been read up to `pos`. */
  function Consume(r: Reader, pos: nat): (r2: Reader)
    requires ReaderOk(r) && r.depth <= MAX_DEPTH && pos <= |r.data|
    ensures ReaderOk(r2)
  {
    var c := r.count[r.depth];
    var left := if c == 0 then 0 else c - 1;
    r.(pos := pos, count := r.count[r.depth := left], stop := r.stop || left == 0)
  }

  function Alone(r: Reader): bool
    requires ReaderOk(r)
  {
    r.depth == 0 && r.count[0] == 0
  }

  function NextStop(r: Reader): (n: (Elem, Reader))
    requires ReaderOk(r) && r.stop && r.depth <= MAX_DEPTH
    ensures ReaderOk(n.1)
  {
    var complete := r.count[0] == 0 && (r.depth == 0 || (r.depth == 1 && r.count[1] == 0));
    var pos := if r.pos < |r.data| && r.data[r.pos] == EVENT_TYPE_LIST_STOP then r.pos + 1 else r.pos;
    (Elem(EVENT_TYPE_LIST_STOP, 0, Nothing, complete),
     if r.depth > 0 then r.(pos := pos, depth := r.depth - 1, stop := r.count[r.depth - 1] == 0)
     else r.(pos := pos, stop := false))
  }

  function NextNumber(r: Reader, kind: Kind): (n: (Elem, Reader))
    requires ReaderOk(r) && r.depth <= MAX_DEPTH && r.pos < |r.data|
    ensures ReaderOk(n.1)
  {
    var end := r.pos + 1 + kind.Width();
    if end > |r.data| then (Elem(EVENT_TYPE_UNKNOWN, kind.Width(), Nothing, false), r)
    else
      (Elem(kind.Code(), kind.Width(), Bits(FromLittleEndian(r.data[r.pos + 1..end])), Alone(r)),
       Consume(r, end))
  }

  /** The 32-bit length field is compared as a signed int and stored in 16 bits. */
  function NextString(r: Reader): (n: (Elem, Reader))
    requires ReaderOk(r) && r.depth <= MAX_DEPTH && r.pos < |r.data|
    ensures ReaderOk(n.1)
  {
    var start := r.pos + 5;
    if start > |r.data| then (Unknown(true), r)
    else
      var field := FromLittleEndian(r.data[r.pos + 1..start]);
      if 0xFFFF <= field < 0x8000_0000 then (Unknown(false), r)
      else
        var len := field % 0x1_0000;
        var cut := if start + len > |r.data| then |r.data| - start else len;
        if start + len > |r.data| && cut == 0 then (Unknown(true), r)
        else
          (Elem(EVENT_TYPE_STRING, cut, Bytes(r.data[start..start + cut]), Alone(r)),
           Consume(r, start + cut))
  }

  function NextList(r: Reader): (n: (Elem, Reader))
    requires ReaderOk(r) && !r.stop && r.depth <= MAX_DEPTH && r.pos < |r.data|
    ensures ReaderOk(n.1)
  {
    if r.pos + 2 > |r.data| then (Unknown(true), r)
    else
      var n := r.data[r.pos + 1];
      var c := r.count[r.depth];
      var outer := r.count[r.depth := if c == 0 then 0 else c - 1];
      (Elem(EVENT_TYPE_LIST, 0, Nothing, r.depth >= MAX_DEPTH),
       r.(pos := r.pos + 2, depth := r.depth + 1, stop := n == 0,
          count := if r.depth < MAX_DEPTH then outer[r.depth + 1 := SignExtend(n)] else outer))
  }

  function NextNewline(r: Reader): (n: (Elem, Reader))
    requires ReaderOk(r) && r.depth <= MAX_DEPTH && r.pos < |r.data|
    ensures ReaderOk(n.1)
  {
    if r.depth == 0 then (Unknown(true), r.(pos := r.pos + 1))
    else (Elem(EVENT_TYPE_LIST_STOP, 0, Nothing, false), r.(pos := r.pos + 1, depth := r.depth - 1))
  }

  /** android_log_read_next: the element, and the context afterwards; a peek
      returns the same element and leaves the context alone. */
  function Next(r: Reader): (n: (Elem, Reader))
    requires ReaderOk(r)
    ensures ReaderOk(n.1)
  {
    if r.depth > MAX_DEPTH || r.count[r.depth] >= MAX_COUNT then
      var isStop := r.stop || (r.depth <= MAX_DEPTH && r.count[r.depth] == 0);
      (if isStop then Elem(EVENT_TYPE_LIST_STOP, 0, Nothing, true) else Unknown(true), r)
    else if r.stop then NextStop(r)
    else if r.pos + 1 > |r.data| then (Unknown(true), r)
    else
      var t := r.data[r.pos];
      if t == EVENT_TYPE_INT then NextNumber(r, KInt)
      else if t == EVENT_TYPE_FLOAT then NextNumber(r, KFloat)
      else if t == EVENT_TYPE_LONG then NextNumber(r, KLong)
      else if t == EVENT_TYPE_STRING then NextString(r)
      else if t == EVENT_TYPE_LIST then NextList(r)
      else if t == EVENT_TYPE_LIST_STOP then NextNewline(r)
      else (Unknown(false), r)
  }

  /** The context after `n` reads, and the elements they return. */
  function After(r: Reader, n: nat): (r2: Reader)
    requires ReaderOk(r)
    ensures ReaderOk(r2)
    decreases n
  {
    if n == 0 then r else After(Next(r).1, n - 1)
  }

  function Elems(r: Reader, n: nat): (es: seq<Elem>)
    requires ReaderOk(r)
    ensures |es| == n
    decreases n
  {
    if n == 0 then [] else [Next(r).0] + Elems(Next(r).1, n - 1)
  }

  // ----------------------------------------------------------- what a reader wants

  const StopElem: Elem := Elem(EVENT_TYPE_LIST_STOP, 0, Nothing, false)

  /** The tree in preorder, with a stop after each list. */
  function Tokens(x: Item): (ts: seq<Elem>)
    ensures |ts| > 0
    decreases x
  {
    match x
    case Number(kind, bits) => [Elem(kind.Code(), kind.Width(), Bits(bits), false)]
    case Text(s) => [Elem(EVENT_TYPE_STRING, |s|, Bytes(s), false)]
    case List(items) => [Elem(EVENT_TYPE_LIST, 0, Nothing, false)] + TokensAll(items) + [StopElem]
  }

  function TokensAll(xs: seq<Item>): seq<Elem>
    decreases xs
  {
    if xs == [] then [] else Tokens(xs[0]) + TokensAll(xs[1..])
  }

  function MarkLast(ts: seq<Elem>): seq<Elem>
    requires |ts| > 0
  {
    ts[|ts| - 1 := ts[|ts| - 1].(complete := true)]
  }

  /** What the log message stands for: its one element, or the list of them. */
  function Root(xs: seq<Item>): Item
    requires |xs| > 0
  {
    if |xs| == 1 then xs[0] else List(xs)
  }

  /** No list is longer than an int8_t can say, and none is too deep. */
  predicate Readable(x: Item, depth: nat)
    decreases x
  {
    match x
    case List(items) => |items| <= 127 && depth < MAX_DEPTH && AllReadable(items, depth + 1)
    case _ => true
  }

  predicate AllReadable(xs: seq<Item>, depth: nat)
    decreases xs
  {
    xs == [] || (Readable(xs[0], depth) && AllReadable(xs[1..], depth))
  }
}
