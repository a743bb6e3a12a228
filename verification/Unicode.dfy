/** The UTF-8 and UTF-16 converters of libutils and their measuring functions.
    Everything is 32 bits wide, as in the code; octets and units are those that fit. */
module Unicode {
  import opened Common

  type octet = b: bv32 | b < 0x100
  type unit = u: bv32 | u < 0x1_0000

  // ----------------------------------------------------------------- one code point

  /** utf32_codepoint_utf8_length: 0 for what is not a Unicode scalar value. */
  function Utf8Length(c: bv32): (n: nat)
    ensures n <= 4
  {
    if c < 0x80 then 1
    else if c < 0x800 then 2
    else if c < 0x1_0000 then (if c < 0xD800 || c > 0xDFFF then 3 else 0)
    else if c <= 0x10_FFFF then 4
    else 0
  }

  function Tail(c: bv32): octet {
    (c | 0x80) & 0xBF
  }

  /** The bits left when the last six have been written. */
  function Rest(c: bv32): bv32 {
    c >> 6
  }

  function Head(c: bv32, mark: bv32): octet {
    (c | mark) & 0xFF
  }

  /** utf32_codepoint_to_utf8: from the last byte to the first. */
  function ToUtf8(c: bv32, bytes: nat): (s: seq<octet>)
    requires bytes <= 4
    ensures |s| == bytes
  {
    match bytes
    case 0 => []
    case 1 => [Head(c, 0)]
    case 2 => [Head(Rest(c), 0xC0), Tail(c)]
    case 3 => [Head(Rest(Rest(c)), 0xE0), Tail(Rest(c)), Tail(c)]
    case 4 => [Head(Rest(Rest(Rest(c))), 0xF0), Tail(Rest(Rest(c))), Tail(Rest(c)), Tail(c)]
  }

  /** utf8_codepoint_len: two bits of a table for each leading half byte. */
  function LengthBits(b: octet): bv32 {
    (0xe500_0000 >> ((b >> 3) & 0x1e)) & 3
  }

  function CodepointLen(b: octet): (n: nat)
    ensures 1 <= n <= 4
  {
    var t := LengthBits(b);
    if t == 0 then 1 else if t == 1 then 2 else if t == 2 then 3 else 4
  }

  function ShiftAndMask(c: bv32, b: octet): bv32 {
    (c << 6) | (0x3F & b)
  }

  /** utf8_to_utf32_codepoint. */
  function FromUtf8(s: seq<octet>): bv32
    requires 1 <= |s| <= 4
  {
    match |s|
    case 1 => s[0]
    case 2 => ShiftAndMask(s[0] & 0x1F, s[1])
    case 3 => ShiftAndMask(ShiftAndMask(s[0] & 0x0F, s[1]), s[2])
    case _ => ShiftAndMask(ShiftAndMask(ShiftAndMask(s[0] & 0x07, s[1]), s[2]), s[3])
  }

  predicate IsLead(u: unit) {
    u & 0xFC00 == 0xD800
  }

  predicate IsTrail(u: unit) {
    u & 0xFC00 == 0xDC00
  }

  predicate StartsWithPair(s: seq<unit>) {
    |s| >= 2 && IsLead(s[0]) && IsTrail(s[1])
  }

  function FromPair(lead: unit, trail: unit): bv32 {
    (((lead - 0xD800) << 10) | (trail - 0xDC00)) + 0x1_0000
  }

  /** What a code point is beyond the sixteen bits of one unit. */
  function Above(c: bv32): bv32 {
    c - 0x1_0000
  }

  function Upper(d: bv32): unit {
    ((d >> 10) + 0xD800) & 0xFFFF
  }

  function Lower(d: bv32): unit {
    ((d & 0x3FF) + 0xDC00) & 0xFFFF
  }

  /** What utf8_to_utf16 stores for a code point, each unit cut to 16 bits. */
  function ToUtf16(c: bv32): (s: seq<unit>)
    ensures 1 <= |s| <= 2
    ensures |s| == 1 <==> c <= 0xFFFF
  {
    if c <= 0xFFFF then [c]
    else
      [Upper(Above(c)), Lower(Above(c))]
  }

  // -------------------------------------------------------------------- whole strings

  /** The first code point of a UTF-16 string, and its number of units. */
  function First16(s: seq<unit>): (r: (bv32, nat))
    requires s != []
    ensures 1 <= r.1 <= |s|
  {
    if StartsWithPair(s) then (FromPair(s[0], s[1]), 2) else (s[0], 1)
  }

  function Utf16ToUtf8(s: seq<unit>): seq<octet>
    decreases |s|
  {
    if s == [] then []
    else
      var (c, n) := First16(s);
      ToUtf8(c, Utf8Length(c)) + Utf16ToUtf8(s[n..])
  }

  /** utf16_to_utf8_length, without its overflow check. */
  function MeasuredUtf8(s: seq<unit>): nat
    decreases |s|
  {
    if s == [] then 0
    else if StartsWithPair(s) then 4 + MeasuredUtf8(s[2..])
    else Utf8Length(s[0]) + MeasuredUtf8(s[1..])
  }

  /** utf8_to_utf16_length: nothing when the last character is cut short. */
  function MeasuredUtf16(s: seq<octet>): Option<nat>
    decreases |s|
  {
    if s == [] then Some(0)
    else
      var n := CodepointLen(s[0]);
      if n > |s| then None
      else
        match MeasuredUtf16(s[n..])
        case None => None
        case Some(m) => Some(|ToUtf16(FromUtf8(s[..n]))| + m)
  }

  /** The units for a string that can be measured. */
  function Utf8ToUtf16(s: seq<octet>): seq<unit>
    requires MeasuredUtf16(s).Some?
    decreases |s|
  {
    if s == [] then []
    else
      var n := CodepointLen(s[0]);
      ToUtf16(FromUtf8(s[..n])) + Utf8ToUtf16(s[n..])
  }

  // ---------------------------------------------------------------- what is well formed

  /** No surrogate without its other half (section 2.1 of RFC 2781). */
  predicate WellFormed16(s: seq<unit>)
    decreases |s|
  {
    s == []
    || (StartsWithPair(s) && WellFormed16(s[2..]))
    || ((s[0] < 0xD800 || s[0] > 0xDFFF) && WellFormed16(s[1..]))
  }

  predicate IsTail(b: octet) {
    0x80 <= b <= 0xBF
  }

  /** The byte sequences of section 4 of RFC 3629. */
  predicate Character8(s: seq<octet>): (b: bool)
    ensures b ==> 1 <= |s| <= 4
  {
    match |s|
    case 1 => s[0] <= 0x7F
    case 2 => 0xC2 <= s[0] <= 0xDF && IsTail(s[1])
    case 3 =>
      && IsTail(s[2])
      && if s[0] == 0xE0 then 0xA0 <= s[1] <= 0xBF
         else if s[0] == 0xED then 0x80 <= s[1] <= 0x9F
         else 0xE1 <= s[0] <= 0xEF && IsTail(s[1])
    case 4 =>
      && IsTail(s[2]) && IsTail(s[3])
      && if s[0] == 0xF0 then 0x90 <= s[1] <= 0xBF
         else if s[0] == 0xF4 then 0x80 <= s[1] <= 0x8F
         else 0xF1 <= s[0] <= 0xF3 && IsTail(s[1])
    case _ => false
  }

  ghost predicate WellFormed8(s: seq<octet>)
    decreases |s|
  {
    s == [] || exists n :: 1 <= n <= |s| && Character8(s[..n]) && WellFormed8(s[n..])
  }
}
