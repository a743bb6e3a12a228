/** Length-prefixed records over a byte stream: what the stream holds, and that
    framing and unframing are inverse. */
module RecordStream {
  import opened Common

  const HEADER_SIZE: nat := 4

  /** The length field: 32 bits, most significant byte first. */
  function Length(h: seq<byte>): nat
    requires |h| >= HEADER_SIZE
  {
    var first: nat := h[0];
    ((first * 256 + h[1]) * 256 + h[2]) * 256 + h[3]
  }

  function Header(n: nat): (h: seq<byte>)
    requires n < 0x1_0000_0000
    ensures |h| == HEADER_SIZE
  {
    [n / 0x100_0000, n / 0x1_0000 % 256, n / 256 % 256, n % 256]
  }

  /** The first record of a stream and what follows it, once all of it is there. */
  function FirstRecord(s: seq<byte>): (r: Option<(seq<byte>, seq<byte>)>)
    ensures r.Some? ==> |r.value.1| + |r.value.0| + HEADER_SIZE == |s|
  {
    if |s| < HEADER_SIZE then None
    else
      var end := HEADER_SIZE + Length(s);
      if |s| < end then None else Some((s[HEADER_SIZE..end], s[end..]))
  }

  /** All complete records, in order. */
  function Records(s: seq<byte>): seq<seq<byte>>
    decreases |s|
  {
    match FirstRecord(s)
    case None => []
    case Some((record, rest)) => [record] + Records(rest)
  }

  /** No record, nor the one cut short at the end, is longer than `max`. */
  predicate AllFit(s: seq<byte>, max: nat)
    decreases |s|
  {
    |s| < HEADER_SIZE
    || (Length(s) <= max && (FirstRecord(s).None? || AllFit(FirstRecord(s).value.1, max)))
  }

  // --------------------------------------------------------------------------- framing

  function Frame(rs: seq<seq<byte>>): seq<byte>
    requires forall r <- rs :: |r| < 0x1_0000_0000
  {
    if rs == [] then [] else Header(|rs[0]|) + rs[0] + Frame(rs[1..])
  }

  lemma LengthOfHeader(n: nat)
    requires n < 0x1_0000_0000
    ensures Length(Header(n)) == n
  {
    assert n / 0x1_0000 == n / 256 / 256 && n / 0x100_0000 == n / 256 / 256 / 256;
  }

  lemma FirstOfFrame(r: seq<byte>, t: seq<byte>)
    requires |r| < 0x1_0000_0000
    ensures FirstRecord(Header(|r|) + r + t) == Some((r, t))
  {
    var s := Header(|r|) + r + t;
    LengthOfHeader(|r|);
    hide Header;
    assert s[HEADER_SIZE..HEADER_SIZE + |r|] == r && s[HEADER_SIZE + |r|..] == t;
    assert Length(s) == Length(Header(|r|));
  }

  /** The records of a framed sequence are that sequence, also with a cut record at
      the end, `tail`. */
  lemma {:induction false} FrameRoundTrip(rs: seq<seq<byte>>, tail: seq<byte>)
    requires (forall r <- rs :: |r| < 0x1_0000_0000) && FirstRecord(tail).None?
    ensures Records(Frame(rs) + tail) == rs
  {
    hide FirstRecord;
    if rs == [] {
      assert Frame(rs) + tail == tail;
    } else {
      assert Frame(rs) + tail == Header(|rs[0]|) + rs[0] + (Frame(rs[1..]) + tail);
      FirstOfFrame(rs[0], Frame(rs[1..]) + tail);
      FrameRoundTrip(rs[1..], tail);
    }
  }

  lemma {:induction false} FrameFits(rs: seq<seq<byte>>, max: nat)
    requires forall r <- rs :: |r| <= max && |r| < 0x1_0000_0000
    ensures AllFit(Frame(rs), max)
  {
    if rs != [] {
      FirstOfFrame(rs[0], Frame(rs[1..]));
      LengthOfHeader(|rs[0]|);
      assert Length(Frame(rs)) == Length(Header(|rs[0]|));
      FrameFits(rs[1..], max);
    }
  }

  /** What is in the buffer already decides the first record. */
  lemma FirstIsStable(a: seq<byte>, b: seq<byte>)
    requires FirstRecord(a).Some?
    ensures FirstRecord(a + b) == Some((FirstRecord(a).value.0, FirstRecord(a).value.1 + b))
  {
    var s := a + b;
    assert Length(s) == Length(a);
    var end := HEADER_SIZE + Length(a);
    assert s[HEADER_SIZE..end] == a[HEADER_SIZE..end];
    assert s[end..] == a[end..] + b;
  }
}
