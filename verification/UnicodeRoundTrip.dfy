/** Measured lengths are exact for any input, and each round trip is the identity on
    exactly the well-formed strings. */
module UnicodeRoundTrip {
  import opened Common
  import opened Unicode
  import opened UnicodeBits

  // --------------------------------------------------------------------- measuring

  lemma PairLength(s: seq<unit>)
    requires StartsWithPair(s)
    ensures Scalar(First16(s).0) && Utf8Length(First16(s).0) == 4
  {
    PairBack(s[0], s[1]);
    hide FromPair, ToUtf16;
  }

  /** Also with lone surrogates, which take no bytes in either. */
  lemma {:induction false} MeasuredUtf8IsExact(s: seq<unit>)
    ensures |Utf16ToUtf8(s)| == MeasuredUtf8(s)
    decreases |s|
  {
    hide Utf8Length, ToUtf8, FromPair, IsLead, IsTrail;
    if s != [] {
      MeasuredUtf8IsExact(s[First16(s).1..]);
      if StartsWithPair(s) { PairLength(s); }
    }
  }

  lemma {:induction false} MeasuredUtf16IsExact(s: seq<octet>)
    requires MeasuredUtf16(s).Some?
    ensures |Utf8ToUtf16(s)| == MeasuredUtf16(s).value
    decreases |s|
  {
    hide CodepointLen, FromUtf8, ToUtf16;
    if s != [] {
      MeasuredUtf16IsExact(s[CodepointLen(s[0])..]);
    }
  }

  // ------------------------------------------------------------------ one character on

  lemma CharacterAhead(s: seq<octet>, n: nat)
    requires n <= |s| && Character8(s[..n])
    ensures n >= 1 && CodepointLen(s[0]) == n
    ensures MeasuredUtf16(s[n..]).Some? ==> MeasuredUtf16(s).Some?
    ensures MeasuredUtf16(s[n..]).Some? ==> Utf8ToUtf16(s) == ToUtf16(FromUtf8(s[..n])) + Utf8ToUtf16(s[n..])
  {
    DecodedBack(s[..n]);
    hide CodepointLen, FromUtf8, ToUtf16, ToUtf8, Utf8Length, Scalar;
  }

  /** The units of a scalar value in front of any string. */
  lemma UnitsAhead(c: bv32, t: seq<unit>)
    requires Scalar(c)
    ensures First16(ToUtf16(c) + t) == (c, |ToUtf16(c)|)
    ensures WellFormed16(t) ==> WellFormed16(ToUtf16(c) + t)
  {
    var s := ToUtf16(c) + t;
    assert s[|ToUtf16(c)|..] == t;
    if c <= 0xFFFF {
      NotLead(c);
      assert s[0] == c;
      hide IsLead, IsTrail, FromPair;
    } else {
      UnpairedBack(c);
      hide ToUtf16, IsLead, IsTrail, FromPair, Scalar;
    }
  }

  lemma UnitsConvert(c: bv32, t: seq<unit>)
    requires Scalar(c)
    ensures Utf16ToUtf8(ToUtf16(c) + t) == ToUtf8(c, Utf8Length(c)) + Utf16ToUtf8(t)
  {
    hide ToUtf16, Scalar, First16, Utf8Length, ToUtf8;
    UnitsAhead(c, t);
    assert (ToUtf16(c) + t)[|ToUtf16(c)|..] == t;
  }

  lemma NotLead(c: bv32)
    requires c < 0xD800 || 0xDFFF < c <= 0xFFFF
    ensures !IsLead(c)
  {
  }

  lemma FirstIsScalar(s: seq<unit>)
    requires s != []
    ensures var (c, n) := First16(s);
            if StartsWithPair(s) || s[0] < 0xD800 || s[0] > 0xDFFF
            then Scalar(c) && ToUtf16(c) == s[..n]
            else Utf8Length(c) == 0
  {
    if StartsWithPair(s) {
      PairBack(s[0], s[1]);
      assert s[..2] == [s[0], s[1]];
      hide FromPair, ToUtf16;
    } else {
      assert s[..1] == [s[0]];
    }
  }

  /** The bytes of a scalar value in front of any string. */
  lemma BytesAhead(c: bv32, t: seq<octet>)
    requires Scalar(c)
    ensures var s := ToUtf8(c, Utf8Length(c)) + t;
            && (WellFormed8(t) ==> WellFormed8(s))
            && (MeasuredUtf16(t).Some? ==> MeasuredUtf16(s).Some? && Utf8ToUtf16(s) == ToUtf16(c) + Utf8ToUtf16(t))
  {
    EncodedBack(c);
    var n := Utf8Length(c);
    var s := ToUtf8(c, n) + t;
    hide ToUtf8, FromUtf8, Character8, Utf8Length, ToUtf16, Scalar;
    assert s[..n] == ToUtf8(c, n) && s[n..] == t;
    CharacterAhead(s, n);
  }

  // ----------------------------------------------------------- what conversions produce

  lemma {:induction false} OutputIsWellFormed8(s: seq<unit>)
    ensures WellFormed8(Utf16ToUtf8(s))
    decreases |s|
  {
    hide FromPair, IsLead, IsTrail, ToUtf16, Scalar;
    if s != [] {
      var (c, n) := First16(s);
      OutputIsWellFormed8(s[n..]);
      FirstIsScalar(s);
      hide WellFormed8, Utf8Length, ToUtf8, First16;
      if Scalar(c) {
        BytesAhead(c, Utf16ToUtf8(s[n..]));
      } else {
        assert Utf16ToUtf8(s) == Utf16ToUtf8(s[n..]);
      }
    }
  }

  lemma {:induction false} WellFormedConverts(s: seq<octet>)
    requires WellFormed8(s)
    ensures MeasuredUtf16(s).Some? && WellFormed16(Utf8ToUtf16(s)) && Utf16ToUtf8(Utf8ToUtf16(s)) == s
    decreases |s|
  {
    hide Character8, MeasuredUtf16, Utf8ToUtf16, WellFormed16, Utf16ToUtf8;
    if s == [] {
      NothingConverts();
    } else {
      var n :| 1 <= n <= |s| && Character8(s[..n]) && WellFormed8(s[n..]);
      hide WellFormed8;
      WellFormedConverts(s[n..]);
      CharacterConverts(s, n);
    }
  }

  lemma CharacterConverts(s: seq<octet>, n: nat)
    requires n <= |s| && Character8(s[..n]) && MeasuredUtf16(s[n..]).Some?
    requires var t := Utf8ToUtf16(s[n..]); WellFormed16(t) && Utf16ToUtf8(t) == s[n..]
    ensures MeasuredUtf16(s).Some? && WellFormed16(Utf8ToUtf16(s)) && Utf16ToUtf8(Utf8ToUtf16(s)) == s
  {
    hide *;
    var c, t := FromUtf8(s[..n]), Utf8ToUtf16(s[n..]);
    CharacterAhead(s, n);
    DecodedBack(s[..n]);
    UnitsAhead(c, t);
    UnitsConvert(c, t);
    assert s == s[..n] + s[n..];
  }

  lemma {:induction false} RoundTrip16(s: seq<unit>)
    requires WellFormed16(s)
    ensures MeasuredUtf16(Utf16ToUtf8(s)).Some? && Utf8ToUtf16(Utf16ToUtf8(s)) == s
    decreases |s|
  {
    hide FromPair, IsLead, IsTrail, ToUtf16, ToUtf8, Utf8Length, Scalar, MeasuredUtf16, Utf8ToUtf16;
    if s == [] {
      NothingConverts();
    } else {
      var (c, n) := First16(s);
      FirstIsScalar(s);
      WellFormedRest(s);
      RoundTrip16(s[n..]);
      BytesAhead(c, Utf16ToUtf8(s[n..]));
      assert s == s[..n] + s[n..];
    }
  }

  lemma WellFormedRest(s: seq<unit>)
    requires s != [] && WellFormed16(s)
    ensures WellFormed16(s[First16(s).1..])
  {
    LeadIsSurrogate(s[0]);
    hide IsLead, IsTrail, FromPair;
  }

  lemma LeadIsSurrogate(u: unit)
    ensures IsLead(u) ==> 0xD800 <= u <= 0xDFFF
  {
  }

  lemma NothingConverts()
    ensures MeasuredUtf16([]) == Some(0) && Utf8ToUtf16([]) == []
    ensures WellFormed16([]) && Utf16ToUtf8([]) == []
  {
  }

  // -------------------------------------------------------------------------- theorems

  /** UTF-16 to UTF-8 and back: always possible, and the identity on exactly the
      strings without a lone surrogate. */
  lemma ThereAndBack16(s: seq<unit>)
    ensures var t := Utf16ToUtf8(s);
            MeasuredUtf16(t).Some? && (Utf8ToUtf16(t) == s <==> WellFormed16(s))
  {
    OutputIsWellFormed8(s);
    WellFormedConverts(Utf16ToUtf8(s));
    hide MeasuredUtf16, Utf8ToUtf16, Utf16ToUtf8, WellFormed8;
    if WellFormed16(s) { RoundTrip16(s); }
  }

  /** UTF-8 to UTF-16 and back, for any bytes that can be measured: the identity on
      exactly the well-formed strings, which all can. */
  lemma ThereAndBack8(s: seq<octet>)
    ensures WellFormed8(s) ==> MeasuredUtf16(s).Some?
    ensures MeasuredUtf16(s).Some? ==> (Utf16ToUtf8(Utf8ToUtf16(s)) == s <==> WellFormed8(s))
  {
    hide MeasuredUtf16, Utf8ToUtf16, Utf16ToUtf8, WellFormed8;
    if WellFormed8(s) { WellFormedConverts(s); }
    if MeasuredUtf16(s).Some? { OutputIsWellFormed8(Utf8ToUtf16(s)); }
  }
}
