/** The converters and measuring functions as the code runs them: loops over the
    source that write a destination buffer in place. */
module UnicodeImpl {
  import opened Common
  import opened Unicode
  import opened UnicodeBits
  import opened UnicodeRoundTrip

  const SSIZE_MAX: nat := 0x7FFF_FFFF_FFFF_FFFF

  /** utf16_to_utf8_length: -1 for nothing, or for a length that does not fit. */
  method Utf16ToUtf8Length(src: seq<unit>) returns (ret: int)
    ensures ret == if src == [] || |Utf16ToUtf8(src)| > SSIZE_MAX then -1 else |Utf16ToUtf8(src)|
  {
    hide Utf8Length, IsLead, IsTrail, Utf16ToUtf8;
    MeasuredUtf8IsExact(src);
    if src == [] { return -1; }
    ret := 0;
    var i := 0;
    assert src[0..] == src;
    while i < |src|
      invariant 0 <= i <= |src| && 0 <= ret <= SSIZE_MAX
      invariant ret + MeasuredUtf8(src[i..]) == MeasuredUtf8(src)
    {
      var charLen;
      ghost var rest := src[i..];
      if IsLead(src[i]) && i + 1 < |src| && IsTrail(src[i + 1]) {
        charLen := 4;
        i := i + 2;
        assert rest[2..] == src[i..];
      } else {
        charLen := Utf8Length(src[i]);
        i := i + 1;
        assert rest[1..] == src[i..];
      }
      if SSIZE_MAX - charLen < ret { return -1; }
      ret := ret + charLen;
    }
  }

  /** utf32_codepoint_to_utf8: the last byte first. */
  method StoreUtf8(dst: array<octet>, at: nat, c: bv32, bytes: nat)
    requires bytes <= 4 && at + bytes <= dst.Length
    modifies dst
    ensures dst[..at + bytes] == old(dst[..at]) + ToUtf8(c, bytes)
  {
    hide Head, Tail, Rest;
    var p := at + bytes;
    var left := c;
    if bytes >= 4 { p := p - 1; dst[p] := Tail(left); left := Rest(left); }
    if bytes >= 3 { p := p - 1; dst[p] := Tail(left); left := Rest(left); }
    if bytes >= 2 { p := p - 1; dst[p] := Tail(left); left := Rest(left); }
    if bytes >= 1 {
      p := p - 1;
      dst[p] := Head(left, if bytes == 1 then 0 else if bytes == 2 then 0xC0 else if bytes == 3 then 0xE0 else 0xF0);
    }
    assert dst[..at] == old(dst[..at]);
    Written(dst[..], at, bytes);
  }

  lemma Written(s: seq<octet>, at: nat, n: nat)
    requires n <= 4 && at + n <= |s|
    ensures s[..at + n] == s[..at] + (match n
                                      case 0 => []
                                      case 1 => [s[at]]
                                      case 2 => [s[at], s[at + 1]]
                                      case 3 => [s[at], s[at + 1], s[at + 2]]
                                      case 4 => [s[at], s[at + 1], s[at + 2], s[at + 3]])
  {
  }

  /** utf16_to_utf8 into a buffer of the measured length and one byte: neither of its
      fatal checks can fail, and an empty source writes nothing at all. */
  method ConvertUtf16(src: seq<unit>, dst: array<octet>, dstLen: nat)
    requires MeasuredUtf8(src) + 1 <= dstLen <= dst.Length
    modifies dst
    ensures src == [] ==> dst[..] == old(dst[..])
    ensures src != [] ==>
      var n := MeasuredUtf8(src); dst[..n] == Utf16ToUtf8(src) && dst[n] == 0
  {
    MeasuredUtf8IsExact(src);
    hide ToUtf8, Utf8Length, IsLead, IsTrail, FromPair, MeasuredUtf8, Utf16ToUtf8;
    if src == [] { return; }
    var i, cur, left := 0, 0, dstLen;
    assert src[0..] == src;
    while i < |src|
      invariant 0 <= i <= |src| && 0 <= cur <= dst.Length && cur + left == dstLen
      invariant cur + |Utf16ToUtf8(src[i..])| == MeasuredUtf8(src)
      invariant dst[..cur] + Utf16ToUtf8(src[i..]) == Utf16ToUtf8(src)
    {
      var (c, n) := First16(src[i..]);
      var len := Utf8Length(c);
      OneConverted(src, i);
      assert left >= len;   // the code's own check
      StoreUtf8(dst, cur, c, len);
      i := i + n;
      cur := cur + len;
      left := left - len;
    }
    NothingConverts();
    assert src[|src|..] == [];
    assert left >= 1;       // and the other one
    dst[cur] := 0;
  }

  lemma OneConverted(src: seq<unit>, i: nat)
    requires i < |src|
    ensures var (c, n) := First16(src[i..]);
            i + n <= |src| && Utf16ToUtf8(src[i..]) == ToUtf8(c, Utf8Length(c)) + Utf16ToUtf8(src[i + n..])
  {
    hide First16, ToUtf8, Utf8Length;
    var (c, n) := First16(src[i..]);
    assert src[i..][n..] == src[i + n..];
  }

  lemma MeasuredOne(src: seq<octet>, i: nat)
    requires i < |src|
    ensures var n := CodepointLen(src[i]);
            MeasuredUtf16(src[i..]) ==
              if i + n > |src| then None
              else match MeasuredUtf16(src[i + n..])
                   case None => None
                   case Some(m) => Some(|ToUtf16(FromUtf8(src[i..i + n]))| + m)
  {
    hide CodepointLen, FromUtf8, ToUtf16;
    var n := CodepointLen(src[i]);
    if i + n <= |src| {
      assert src[i..][..n] == src[i..i + n] && src[i..][n..] == src[i + n..];
    }
  }

  /** utf8_to_utf16_length, when an overread is not fatal. */
  method Utf8ToUtf16Length(src: seq<octet>) returns (ret: int)
    ensures ret == match MeasuredUtf16(src) case None => -1 case Some(n) => n
  {
    NothingConverts();
    hide CodepointLen, FromUtf8, ToUtf16, MeasuredUtf16;
    ret := 0;
    var i := 0;
    assert src[0..] == src;
    while i < |src|
      invariant 0 <= i <= |src| && ret >= 0
      invariant MeasuredUtf16(src) == match MeasuredUtf16(src[i..]) case None => None case Some(m) => Some(ret + m)
    {
      ret := ret + 1;
      var n := CodepointLen(src[i]);
      MeasuredOne(src, i);
      if i + n - 1 >= |src| { return -1; }
      var c := FromUtf8(src[i..i + n]);
      if c > 0xFFFF { ret := ret + 1; }
      i := i + n;
    }
    assert src[i..] == [];
  }

  /** utf8_to_utf16_no_null_terminator, for a source that could be measured: with
      room enough it takes in all of it and writes exactly the measured units; with
      less it stops in front of the first character that does not fit. */
  method ConvertUtf8(src: seq<octet>, dst: array<unit>, dstLen: nat) returns (end: nat)
    requires dstLen <= dst.Length && MeasuredUtf16(src).Some?
    modifies dst
    ensures end <= dstLen && end <= |Utf8ToUtf16(src)| && dst[..end] == Utf8ToUtf16(src)[..end]
    ensures dstLen >= MeasuredUtf16(src).value ==> end == MeasuredUtf16(src).value == |Utf8ToUtf16(src)|
    ensures dstLen < MeasuredUtf16(src).value ==> end >= dstLen - 1
  {
    hide CodepointLen, FromUtf8, ToUtf16, MeasuredUtf16, Utf8ToUtf16;
    MeasuredUtf16IsExact(src);
    ghost var out := Utf8ToUtf16(src);
    end := 0;
    var i := 0;
    assert src[0..] == src;
    while i < |src| && end < dstLen
      invariant 0 <= i <= |src| && end <= dstLen
      invariant MeasuredUtf16(src[i..]).Some?
      invariant dst[..end] + Utf8ToUtf16(src[i..]) == out
    {
      var n := CodepointLen(src[i]);
      OneMeasured(src, i);
      var c := FromUtf8(src[i..i + n]);
      var fits := StoreUtf16(dst, end, dstLen, c);
      if !fits { return; }
      end := end + if c <= 0xFFFF then 1 else 2;
      i := i + n;
    }
    if i == |src| {
      NothingConverts();
      assert src[i..] == [];
    }
  }

  lemma OneMeasured(src: seq<octet>, i: nat)
    requires i < |src| && MeasuredUtf16(src[i..]).Some?
    ensures var n := CodepointLen(src[i]);
            && i + n <= |src| && MeasuredUtf16(src[i + n..]).Some?
            && Utf8ToUtf16(src[i..]) == ToUtf16(FromUtf8(src[i..i + n])) + Utf8ToUtf16(src[i + n..])
  {
    hide *;
    var n := CodepointLen(src[i]);
    HeadMeasured(src[i..]);
    assert src[i..][..n] == src[i..i + n] && src[i..][n..] == src[i + n..];
  }

  lemma HeadMeasured(s: seq<octet>)
    requires s != [] && MeasuredUtf16(s).Some?
    ensures var n := CodepointLen(s[0]);
            && n <= |s| && MeasuredUtf16(s[n..]).Some?
            && Utf8ToUtf16(s) == ToUtf16(FromUtf8(s[..n])) + Utf8ToUtf16(s[n..])
  {
    hide CodepointLen, FromUtf8, ToUtf16;
  }

  /** One code point; a pair that does not fit leaves half of itself behind the end. */
  method StoreUtf16(dst: array<unit>, at: nat, end: nat, c: bv32) returns (fits: bool)
    requires at < end <= dst.Length
    modifies dst
    ensures fits <==> at + |ToUtf16(c)| <= end
    ensures dst[..at] == old(dst[..at])
    ensures fits ==> dst[..at + |ToUtf16(c)|] == old(dst[..at]) + ToUtf16(c)
  {
    hide Upper, Lower, Above;
    if c <= 0xFFFF {
      dst[at] := c;
    } else {
      dst[at] := Upper(Above(c));
      if at + 1 >= end { return false; }
      dst[at + 1] := Lower(Above(c));
    }
    return true;
  }
}
