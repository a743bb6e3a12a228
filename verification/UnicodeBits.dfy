/** The bit arithmetic of one code point, both ways. */
module UnicodeBits {
  import opened Unicode

  predicate Scalar(c: bv32) {
    c < 0xD800 || 0xDFFF < c <= 0x10_FFFF
  }

  /** The shift table says what the leading bits say. */
  lemma LengthTable(b: octet)
    ensures CodepointLen(b) == if b < 0xC0 then 1 else if b < 0xE0 then 2 else if b < 0xF0 then 3 else 4
  {
    if b < 0x80 {
    } else if b < 0xC0 {
    } else if b < 0xE0 {
    } else if b < 0xF0 {
    }
  }

  // --------------------------------------------------------------------- surrogates

  lemma UpperBack(l: unit, t: unit)
    requires l & 0xFC00 == 0xD800 && t & 0xFC00 == 0xDC00
    ensures (((((l - 0xD800) << 10) | (t - 0xDC00)) >> 10) + 0xD800) & 0xFFFF == l
  {
  }

  lemma LowerBack(l: unit, t: unit)
    requires l & 0xFC00 == 0xD800 && t & 0xFC00 == 0xDC00
    ensures (((((l - 0xD800) << 10) | (t - 0xDC00)) & 0x3FF) + 0xDC00) & 0xFFFF == t
  {
  }

  lemma PairRange(l: unit, t: unit)
    requires l & 0xFC00 == 0xD800 && t & 0xFC00 == 0xDC00
    ensures 0x1_0000 <= (((l - 0xD800) << 10) | (t - 0xDC00)) + 0x1_0000 <= 0x10_FFFF
  {
  }

  /** The twenty bits a pair carries. */
  function Bits(l: unit, t: unit): bv32 {
    ((l - 0xD800) << 10) | (t - 0xDC00)
  }

  lemma PairUpper(l: unit, t: unit)
    requires IsLead(l) && IsTrail(t)
    ensures Upper(Bits(l, t)) == l
  {
    UpperBack(l, t);
  }

  lemma PairLower(l: unit, t: unit)
    requires IsLead(l) && IsTrail(t)
    ensures Lower(Bits(l, t)) == t
  {
    LowerBack(l, t);
  }

  lemma PairBits(l: unit, t: unit)
    requires IsLead(l) && IsTrail(t)
    ensures 0x1_0000 <= FromPair(l, t) <= 0x10_FFFF
  {
    PairRange(l, t);
  }

  lemma BitsOfPair(l: unit, t: unit)
    ensures Above(FromPair(l, t)) == Bits(l, t)
  {
  }

  lemma TwoUnits(c: bv32)
    requires 0x1_0000 <= c
    ensures ToUtf16(c) == [Upper(Above(c)), Lower(Above(c))]
  {
    hide Upper, Lower, Above;
  }

  lemma PairBack(lead: unit, trail: unit)
    requires IsLead(lead) && IsTrail(trail)
    ensures var c := FromPair(lead, trail); 0x1_0000 <= c <= 0x10_FFFF && ToUtf16(c) == [lead, trail]
  {
    hide *;
    PairBits(lead, trail);
    TwoUnits(FromPair(lead, trail));
    BitsOfPair(lead, trail);
    PairUpper(lead, trail);
    PairLower(lead, trail);
  }

  // ------------------------------------------------------------------- bytes of UTF-8

  lemma TailJoins(c: bv32)
    ensures ShiftAndMask(Rest(c), Tail(c)) == c && IsTail(Tail(c))
  {
  }

  lemma TailSplits(x: bv32, b: octet)
    requires x < 0x400_0000 && IsTail(b)
    ensures Rest(ShiftAndMask(x, b)) == x && Tail(ShiftAndMask(x, b)) == b
  {
  }

  lemma HeadJoins2(c: bv32)
    requires 0x80 <= c < 0x800
    ensures Head(Rest(c), 0xC0) & 0x1F == Rest(c) && 0xC2 <= Head(Rest(c), 0xC0) <= 0xDF
  {
  }

  lemma HeadJoins3(c: bv32)
    requires 0x800 <= c < 0xD800 || 0xDFFF < c < 0x1_0000
    ensures var h := Head(Rest(Rest(c)), 0xE0);
            && h & 0x0F == Rest(Rest(c)) && 0xE0 <= h <= 0xEF
            && (h == 0xE0 ==> Tail(Rest(c)) >= 0xA0)
            && (h == 0xED ==> Tail(Rest(c)) <= 0x9F)
  {
  }

  lemma HeadJoins4(c: bv32)
    requires 0x1_0000 <= c <= 0x10_FFFF
    ensures var h := Head(Rest(Rest(Rest(c))), 0xF0);
            && h & 0x07 == Rest(Rest(Rest(c))) && 0xF0 <= h <= 0xF4
            && (h == 0xF0 ==> Tail(Rest(Rest(c))) >= 0x90)
            && (h == 0xF4 ==> Tail(Rest(Rest(c))) <= 0x8F)
  {
  }

  lemma HeadSplits2(b: octet, t: octet)
    requires 0xC2 <= b <= 0xDF && IsTail(t)
    ensures Head(b & 0x1F, 0xC0) == b && b & 0x1F < 0x400_0000
    ensures 0x80 <= ShiftAndMask(b & 0x1F, t) < 0x800
  {
  }

  lemma HeadSplits3(b: octet, t: octet, u: octet)
    requires 0xE0 <= b <= 0xEF && IsTail(t) && IsTail(u)
    requires (b == 0xE0 ==> t >= 0xA0) && (b == 0xED ==> t <= 0x9F)
    ensures Head(b & 0x0F, 0xE0) == b && b & 0x0F < 0x400_0000 && ShiftAndMask(b & 0x0F, t) < 0x400_0000
    ensures var c := ShiftAndMask(ShiftAndMask(b & 0x0F, t), u);
            0x800 <= c < 0xD800 || 0xDFFF < c < 0x1_0000
  {
  }

  lemma HeadSplits4(b: octet, t: octet, u: octet, v: octet)
    requires 0xF0 <= b <= 0xF4 && IsTail(t) && IsTail(u) && IsTail(v)
    requires (b == 0xF0 ==> t >= 0x90) && (b == 0xF4 ==> t <= 0x8F)
    ensures Head(b & 0x07, 0xF0) == b && b & 0x07 < 0x400_0000
    ensures ShiftAndMask(b & 0x07, t) < 0x400_0000 && ShiftAndMask(ShiftAndMask(b & 0x07, t), u) < 0x400_0000
    ensures 0x1_0000 <= ShiftAndMask(ShiftAndMask(ShiftAndMask(b & 0x07, t), u), v) <= 0x10_FFFF
  {
  }

  lemma LeadMade(d: bv32)
    requires d <= 0xF_FFFF
    ensures IsLead(Upper(d))
  {
  }

  lemma TrailMade(d: bv32)
    ensures IsTrail(Lower(d))
  {
  }

  lemma Rejoined(c: bv32)
    requires 0x1_0000 <= c <= 0x10_FFFF
    ensures FromPair(Upper(Above(c)), Lower(Above(c))) == c
  {
  }

  lemma AboveFits(c: bv32)
    requires 0x1_0000 <= c <= 0x10_FFFF
    ensures Above(c) <= 0xF_FFFF
  {
  }

  lemma UnpairedBack(c: bv32)
    requires 0x1_0000 <= c <= 0x10_FFFF
    ensures var s := ToUtf16(c); |s| == 2 && IsLead(s[0]) && IsTrail(s[1]) && FromPair(s[0], s[1]) == c
  {
    hide *;
    AboveFits(c);
    TwoUnits(c);
    LeadMade(Above(c));
    TrailMade(Above(c));
    Rejoined(c);
  }

  // ----------------------------------------------------------- one code point, one way

  lemma Encoded1(c: bv32)
    requires c < 0x80
    ensures Utf8Length(c) == 1 && Character8(ToUtf8(c, 1)) && FromUtf8(ToUtf8(c, 1)) == c
  {
    Ascii(c);
    hide Head;
  }

  lemma Encoded2(c: bv32)
    requires 0x80 <= c < 0x800
    ensures Utf8Length(c) == 2 && Character8(ToUtf8(c, 2)) && FromUtf8(ToUtf8(c, 2)) == c
  {
    hide Rest, Head, Tail, ShiftAndMask, IsTail;
    HeadJoins2(c);
    TailJoins(c);
  }

  lemma Encoded3(c: bv32)
    requires 0x800 <= c < 0xD800 || 0xDFFF < c < 0x1_0000
    ensures Utf8Length(c) == 3 && Character8(ToUtf8(c, 3)) && FromUtf8(ToUtf8(c, 3)) == c
  {
    hide Rest, Head, Tail, ShiftAndMask, FromUtf8, Character8, IsTail;
    HeadJoins3(c);
    TailJoins(Rest(c));
    TailJoins(c);
    TailBounds(Rest(c));
    ThreeBytes(Head(Rest(Rest(c)), 0xE0), Tail(Rest(c)), Tail(c));
  }

  lemma Encoded4(c: bv32)
    requires 0x1_0000 <= c <= 0x10_FFFF
    ensures Utf8Length(c) == 4 && Character8(ToUtf8(c, 4)) && FromUtf8(ToUtf8(c, 4)) == c
  {
    hide Rest, Head, Tail, ShiftAndMask, FromUtf8, Character8, IsTail;
    HeadJoins4(c);
    TailJoins(Rest(Rest(c)));
    TailJoins(Rest(c));
    TailJoins(c);
    TailBounds(Rest(Rest(c)));
    FourBytes(Head(Rest(Rest(Rest(c))), 0xF0), Tail(Rest(Rest(c))), Tail(Rest(c)), Tail(c));
  }

  lemma TailBounds(c: bv32)
    ensures 0x80 <= Tail(c) <= 0xBF
  {
  }

  lemma ThreeBytes(a: octet, b: octet, c: octet)
    requires 0xE0 <= a <= 0xEF && 0x80 <= b <= 0xBF && IsTail(c)
    requires (a == 0xE0 ==> b >= 0xA0) && (a == 0xED ==> b <= 0x9F)
    ensures Character8([a, b, c])
    ensures FromUtf8([a, b, c]) == ShiftAndMask(ShiftAndMask(a & 0x0F, b), c)
  {
    hide ShiftAndMask;
  }

  lemma FourBytes(a: octet, b: octet, c: octet, d: octet)
    requires 0xF0 <= a <= 0xF4 && 0x80 <= b <= 0xBF && IsTail(c) && IsTail(d)
    requires (a == 0xF0 ==> b >= 0x90) && (a == 0xF4 ==> b <= 0x8F)
    ensures Character8([a, b, c, d])
    ensures FromUtf8([a, b, c, d]) == ShiftAndMask(ShiftAndMask(ShiftAndMask(a & 0x07, b), c), d)
  {
    hide ShiftAndMask;
  }

  /** Any scalar value comes back from its UTF-8 bytes, which are well formed. */
  lemma EncodedBack(c: bv32)
    requires Scalar(c)
    ensures var n := Utf8Length(c); n > 0 && Character8(ToUtf8(c, n)) && FromUtf8(ToUtf8(c, n)) == c
  {
    hide ToUtf8, FromUtf8, Character8, Utf8Length;
    if c < 0x80 {
      Encoded1(c);
    } else if c < 0x800 {
      Encoded2(c);
    } else if c < 0x1_0000 {
      Encoded3(c);
    } else {
      Encoded4(c);
    }
  }

  /** Surrogates and what lies beyond the last code point have no encoding. */
  lemma OnlyScalarsEncode(c: bv32)
    ensures Utf8Length(c) == 0 <==> 0xD800 <= c <= 0xDFFF || c > 0x10_FFFF
  {
  }

  lemma Ascii(c: bv32)
    requires c < 0x80
    ensures Head(c, 0) == c
  {
  }

  lemma Decoded2(a: octet, b: octet)
    requires 0xC2 <= a <= 0xDF && IsTail(b)
    ensures var c := ShiftAndMask(a & 0x1F, b); Scalar(c) && Utf8Length(c) == 2 && ToUtf8(c, 2) == [a, b]
  {
    hide Rest, Head, Tail, ShiftAndMask;
    HeadSplits2(a, b);
    TailSplits(a & 0x1F, b);
  }

  lemma Decoded3(a: octet, b: octet, c: octet)
    requires 0xE0 <= a <= 0xEF && IsTail(b) && IsTail(c)
    requires (a == 0xE0 ==> b >= 0xA0) && (a == 0xED ==> b <= 0x9F)
    ensures var d := ShiftAndMask(ShiftAndMask(a & 0x0F, b), c);
            Scalar(d) && Utf8Length(d) == 3 && ToUtf8(d, 3) == [a, b, c]
  {
    hide Rest, Head, Tail, ShiftAndMask;
    HeadSplits3(a, b, c);
    var x := ShiftAndMask(a & 0x0F, b);
    TailSplits(a & 0x0F, b);
    TailSplits(x, c);
  }

  lemma Bytes4(a: octet, b: octet, c: octet, d: octet)
    requires 0xF0 <= a <= 0xF4 && IsTail(b) && IsTail(c) && IsTail(d)
    requires (a == 0xF0 ==> b >= 0x90) && (a == 0xF4 ==> b <= 0x8F)
    ensures var e := ShiftAndMask(ShiftAndMask(ShiftAndMask(a & 0x07, b), c), d);
            && 0x1_0000 <= e <= 0x10_FFFF
            && Head(Rest(Rest(Rest(e))), 0xF0) == a && Tail(Rest(Rest(e))) == b && Tail(Rest(e)) == c && Tail(e) == d
  {
    hide *;
    HeadSplits4(a, b, c, d);
    var x := ShiftAndMask(a & 0x07, b);
    var y := ShiftAndMask(x, c);
    TailSplits(a & 0x07, b);
    TailSplits(x, c);
    TailSplits(y, d);
  }

  lemma Decoded4(a: octet, b: octet, c: octet, d: octet)
    requires 0xF0 <= a <= 0xF4 && IsTail(b) && IsTail(c) && IsTail(d)
    requires (a == 0xF0 ==> b >= 0x90) && (a == 0xF4 ==> b <= 0x8F)
    ensures var e := ShiftAndMask(ShiftAndMask(ShiftAndMask(a & 0x07, b), c), d);
            Scalar(e) && Utf8Length(e) == 4 && ToUtf8(e, 4) == [a, b, c, d]
  {
    hide *;
    Bytes4(a, b, c, d);
    var e := ShiftAndMask(ShiftAndMask(ShiftAndMask(a & 0x07, b), c), d);
    InRange4(e);
    FourOf(e);
  }

  lemma FourOf(e: bv32)
    ensures ToUtf8(e, 4) == [Head(Rest(Rest(Rest(e))), 0xF0), Tail(Rest(Rest(e))), Tail(Rest(e)), Tail(e)]
  {
  }

  lemma InRange4(e: bv32)
    requires 0x1_0000 <= e <= 0x10_FFFF
    ensures Scalar(e) && Utf8Length(e) == 4
  {
  }

  /** And any well-formed character from its code point. */
  lemma DecodedBack(s: seq<octet>)
    requires Character8(s)
    ensures var c := FromUtf8(s); Scalar(c) && Utf8Length(c) == |s| && ToUtf8(c, |s|) == s
    ensures CodepointLen(s[0]) == |s|
  {
    hide CodepointLen, ShiftAndMask, ToUtf8, Utf8Length, Scalar;
    LengthTable(s[0]);
    if |s| == 1 {
      Decoded1(s[0]);
      assert s == [s[0]];
    } else if |s| == 2 {
      Decoded2(s[0], s[1]);
      assert s == [s[0], s[1]];
    } else if |s| == 3 {
      Decoded3(s[0], s[1], s[2]);
      assert s == [s[0], s[1], s[2]];
    } else {
      Decoded4(s[0], s[1], s[2], s[3]);
      assert s == [s[0], s[1], s[2], s[3]];
    }
  }

  lemma Decoded1(a: octet)
    requires a < 0x80
    ensures Scalar(a) && Utf8Length(a) == 1 && ToUtf8(a, 1) == [a]
  {
    Ascii(a);
    hide Head;
  }
}
